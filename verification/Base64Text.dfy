/** The text form of base64, against sections 4 and 5 of RFC 4648: alphabet, groups, padding, and
    what the decoder makes of text that no encoder wrote. */
module Base64Text {
  import opened ByteStrings
  import opened Base64

  /** The alphabets: upper-case letters, lower-case letters, digits, and two more. */
  lemma SymbolIs(v: Variant, d: sextet)
    ensures Symbol(v, d) ==
            if d < 26 then 'A' as int + d
            else if d < 52 then 'a' as int + (d - 26)
            else if d < 62 then '0' as int + (d - 52)
            else if d == 62 then (if v == Standard then '+' as int else '-' as int)
            else (if v == Standard then '/' as int else '_' as int)
  {
  }

  /** The decoder knows exactly the symbols of the alphabet. */
  lemma LookupIff(v: Variant, ch: byte, d: sextet)
    ensures Lookup(v, ch) == Some(d) <==> Symbol(v, d) == ch
  {
  }

  /** The number a few symbols spell, the first one weighing most. */
  function Spelled(v: Variant, s: Bytes): Option<int> {
    if s == [] then Some(0)
    else
      var init, last := Spelled(v, s[..|s| - 1]), Lookup(v, s[|s| - 1]);
      if init.Some? && last.Some? then Some(init.value * 64 + last.value) else None
  }

  lemma SpelledTwo(v: Variant, a: sextet, b: sextet)
    ensures Spelled(v, [Symbol(v, a), Symbol(v, b)]) == Some(a * 64 + b)
  {
    var one, s := [Symbol(v, a)], [Symbol(v, a), Symbol(v, b)];
    LookupSymbol(v, a);
    LookupSymbol(v, b);
    assert one[..0] == [] && Spelled(v, one) == Some(a);
    assert s[..1] == one;
  }

  lemma SpelledThree(v: Variant, a: sextet, b: sextet, d: sextet)
    ensures Spelled(v, [Symbol(v, a), Symbol(v, b), Symbol(v, d)]) == Some((a * 64 + b) * 64 + d)
  {
    var s := [Symbol(v, a), Symbol(v, b), Symbol(v, d)];
    assert s[..2] == [Symbol(v, a), Symbol(v, b)];
    SpelledTwo(v, a, b);
    LookupSymbol(v, d);
  }

  lemma SpelledGroup(v: Variant, x: byte, y: byte, z: byte)
    ensures |Group(v, x, y, z)| == 4
    ensures Spelled(v, Group(v, x, y, z)) == Some(x as int * 65536 + y as int * 256 + z as int)
  {
    var a, b, d, e := x / 4, x % 4 * 16 + y / 16, y % 16 * 4 + z / 64, z % 64;
    var g := Group(v, x, y, z);
    assert g[..3] == [Symbol(v, a), Symbol(v, b), Symbol(v, d)];
    SpelledThree(v, a, b, d);
    LookupSymbol(v, e);
    var i: int, j: int, k: int := x, y, z;
    assert i == i / 4 * 4 + i % 4 && j == j / 16 * 16 + j % 16 && k == k / 64 * 64 + k % 64;
  }

  lemma SliceBehind(p: Bytes, r: Bytes, i: nat, j: nat)
    requires |p| <= i <= j <= |p| + |r|
    ensures (p + r)[i..j] == r[i - |p|..j - |p|]
  {
  }

  lemma EncodeStep(v: Variant, b: Bytes)
    requires |b| >= 3
    ensures |Group(v, b[0], b[1], b[2])| == 4
    ensures Encode(v, b) == Group(v, b[0], b[1], b[2]) + Encode(v, b[3..])
  {
  }

  /** Every three bytes become four symbols that spell their number. */
  lemma {:induction false} EncodedGroup(v: Variant, b: Bytes, g: nat)
    requires 3 * g + 3 <= |b|
    ensures 4 * g + 4 <= |Encode(v, b)|
    ensures Spelled(v, Encode(v, b)[4 * g..4 * g + 4])
         == Some(b[3 * g] as int * 65536 + b[3 * g + 1] as int * 256 + b[3 * g + 2] as int)
    decreases g
  {
    var first, r := Group(v, b[0], b[1], b[2]), Encode(v, b[3..]);
    EncodeStep(v, b);
    if g == 0 {
      SpelledGroup(v, b[0], b[1], b[2]);
      assert (first + r)[0..4] == first;
    } else {
      EncodedGroup(v, b[3..], g - 1);
      SliceBehind(first, r, 4 * g, 4 * g + 4);
    }
  }

  /** What the encoding of these bytes should end in, from position g on: one byte becomes two
      symbols and two become three, filled up with zero bits; the standard variant pads to four
      characters, the other one does not. */
  predicate IsTail(v: Variant, rest: Bytes, s: Bytes) {
    if |rest| == 1 then
      |s| >= 2 && Spelled(v, s[..2]) == Some(rest[0] as int * 16)
      && s[2..] == if v == Standard then Ascii("==") else []
    else
      |rest| == 2 && |s| >= 3 && Spelled(v, s[..3]) == Some((rest[0] as int * 256 + rest[1] as int) * 4)
      && s[3..] == if v == Standard then Ascii("=") else []
  }

  lemma TailOfFew(v: Variant, rest: Bytes)
    requires 1 <= |rest| <= 2
    ensures IsTail(v, rest, Encode(v, rest))
  {
    var s := Encode(v, rest);
    if |rest| == 1 {
      SpelledTwo(v, rest[0] / 4, rest[0] % 4 * 16);
      assert s[..2] == [Symbol(v, rest[0] / 4), Symbol(v, rest[0] % 4 * 16)];
      assert Padding(Standard, 2) == Ascii("==");
    } else {
      SpelledThree(v, rest[0] / 4, rest[0] % 4 * 16 + rest[1] / 16, rest[1] % 16 * 4);
      assert s[..3] ==
             [Symbol(v, rest[0] / 4), Symbol(v, rest[0] % 4 * 16 + rest[1] / 16), Symbol(v, rest[1] % 16 * 4)];
      assert Padding(Standard, 1) == Ascii("=");
    }
  }

  predicate HasTail(v: Variant, b: Bytes, s: Bytes) {
    |b| / 3 * 4 <= |s| && IsTail(v, b[|b| / 3 * 3..], s[|b| / 3 * 4..])
  }

  lemma TailBehind(v: Variant, b: Bytes, first: Bytes, r: Bytes)
    requires |b| >= 3 && |first| == 4 && HasTail(v, b[3..], r)
    ensures HasTail(v, b, first + r)
  {
    var n := |b| / 3;
    assert |b[3..]| / 3 == n - 1;
    assert b[3..][n * 3 - 3..] == b[n * 3..];
    assert (first + r)[n * 4..] == r[n * 4 - 4..];
  }

  /** The bytes left over after the last group of three. */
  lemma {:induction false} EncodedTail(v: Variant, b: Bytes)
    requires |b| % 3 != 0
    ensures HasTail(v, b, Encode(v, b))
  {
    if |b| < 3 {
      TailOfFew(v, b);
      assert b[0..] == b && Encode(v, b)[0..] == Encode(v, b);
    } else {
      EncodedTail(v, b[3..]);
      EncodeStep(v, b);
      TailBehind(v, b, Group(v, b[0], b[1], b[2]), Encode(v, b[3..]));
    }
  }

  /** The length of an encoding. */
  lemma {:induction false} EncodedLength(v: Variant, b: Bytes)
    ensures |Encode(v, b)| == if v == Standard then (|b| + 2) / 3 * 4 else (|b| * 4 + 2) / 3
  {
    if |b| >= 3 {
      EncodedLength(v, b[3..]);
    }
  }

  /** A character outside the alphabet, wherever it stands, is as if it were not there. */
  lemma {:induction false} ForeignSkipped(v: Variant, a: Bytes, ch: byte, b: Bytes, buf: Buffer)
    requires Fits(buf) && Lookup(v, ch) == None
    ensures DecodeFrom(v, a + [ch] + b, buf) == DecodeFrom(v, a + b, buf)
    decreases |a|, 0
  {
    if a == [] {
      assert ([] + [ch] + b)[1..] == b && [] + b == b;
    } else {
      assert (a + [ch] + b)[1..] == a[1..] + [ch] + b && (a + b)[1..] == a[1..] + b;
      var d := Lookup(v, a[0]);
      if d.None? {
        ForeignSkipped(v, a[1..], ch, b, buf);
      } else {
        ForeignSkippedAfter(v, d.value, a[1..], ch, b, buf);
      }
    }
  }

  lemma {:induction false} ForeignSkippedAfter(v: Variant, d: sextet, a: Bytes, ch: byte, b: Bytes, buf: Buffer)
    requires Fits(buf) && Lookup(v, ch) == None
    ensures Push(v, d, a + [ch] + b, buf) == Push(v, d, a + b, buf)
    decreases |a|, 1
  {
    var value := buf.value * 64 + d;
    if buf.bits == 0 {
      ForeignSkipped(v, a, ch, b, Buffer(6, value));
    } else if buf.bits == 2 {
      ForeignSkipped(v, a, ch, b, Buffer(0, 0));
    } else if buf.bits == 4 {
      ForeignSkipped(v, a, ch, b, Buffer(2, value % 4));
    } else {
      ForeignSkipped(v, a, ch, b, Buffer(4, value % 16));
    }
  }

  function Symbols(v: Variant, s: Bytes): nat {
    if s == [] then 0 else (if Lookup(v, s[0]).Some? then 1 else 0) + Symbols(v, s[1..])
  }

  /** Decoding gives the whole bytes among the symbols' bits, and no more. */
  lemma {:induction false} DecodedLength(v: Variant, s: Bytes, buf: Buffer)
    requires Fits(buf)
    ensures |DecodeFrom(v, s, buf)| == (buf.bits + 6 * Symbols(v, s)) / 8
  {
    if s != [] {
      var d := Lookup(v, s[0]);
      if d.None? {
        DecodedLength(v, s[1..], buf);
      } else {
        var value := buf.value * 64 + d.value;
        if buf.bits == 0 {
          DecodedLength(v, s[1..], Buffer(6, value));
        } else if buf.bits == 2 {
          DecodedLength(v, s[1..], Buffer(0, 0));
        } else if buf.bits == 4 {
          DecodedLength(v, s[1..], Buffer(2, value % 4));
        } else {
          DecodedLength(v, s[1..], Buffer(4, value % 16));
        }
      }
    }
  }
}
