/** The labels that separate the derived keys: a prefix, a colon and a decimal number. */
module Labels {
  import opened ByteStrings

  const MINUS: byte := 45
  const COLON: byte := 58
  const ZERO: byte := 48

  function Digits(n: nat): (r: Bytes)
    ensures |r| > 0 && forall i :: 0 <= i < |r| ==> '0' as int <= r[i] <= '9' as int
    ensures |r| > 1 ==> r[0] != '0' as int
  {
    if n < 10 then [ZERO + n] else Digits(n / 10) + [ZERO + n % 10]
  }

  /** `QByteArray::number` on an `int`. */
  function Number(n: int): Bytes {
    if n < 0 then [MINUS] + Digits(-n) else Digits(n)
  }

  /** `IntLabel`. */
  function IntLabel(prefix: string, n: int): Bytes {
    Ascii(prefix) + [COLON] + Number(n)
  }

  function MsgLabel(n: int): Bytes {
    IntLabel("msg", n)
  }

  function ChainLabel(n: int): Bytes {
    IntLabel("chain", n)
  }

  /** Reads a decimal string back. */
  function Value(s: Bytes): int {
    if s == [] then 0 else Value(s[..|s| - 1]) * 10 + (s[|s| - 1] - ZERO)
  }

  lemma {:induction false} DigitsValue(n: nat)
    ensures Value(Digits(n)) == n
  {
    var d := Digits(n);
    if n < 10 {
      assert d[..|d| - 1] == [];
    } else {
      DigitsValue(n / 10);
      assert d[..|d| - 1] == Digits(n / 10);
    }
  }

  lemma NumberSign(n: int)
    ensures |Number(n)| > 0 && (Number(n)[0] == '-' as int <==> n < 0)
  {
  }

  lemma NumberInjective(m: int, n: int)
    requires Number(m) == Number(n)
    ensures m == n
  {
    NumberSign(m);
    NumberSign(n);
    DigitsValue(if m < 0 then -m else m);
    DigitsValue(if n < 0 then -n else n);
    if m < 0 && n < 0 {
      assert Number(m)[1..] == Digits(-m) && Number(n)[1..] == Digits(-n);
    }
  }

  /** A label is its prefix, a colon and the number. */
  lemma LabelText(n: int)
    ensures MsgLabel(n) == Ascii("msg:") + Number(n) && ChainLabel(n) == Ascii("chain:") + Number(n)
  {
    assert Ascii("msg") + [COLON] == Ascii("msg:") && Ascii("chain") + [COLON] == Ascii("chain:");
  }

  /** Distinct integers, negative ones included, give distinct labels under one prefix, and the
      two prefixes in use never give the same label. */
  lemma LabelsUnambiguous(m: int, n: int)
    ensures MsgLabel(m) == MsgLabel(n) <==> m == n
    ensures ChainLabel(m) == ChainLabel(n) <==> m == n
    ensures MsgLabel(m) != ChainLabel(n)
  {
    assert MsgLabel(m)[4..] == Number(m) && MsgLabel(n)[4..] == Number(n);
    assert ChainLabel(m)[6..] == Number(m) && ChainLabel(n)[6..] == Number(n);
    if Number(m) == Number(n) {
      NumberInjective(m, n);
    }
    assert MsgLabel(m)[0] == 'm' as int && ChainLabel(n)[0] == 'c' as int;
  }
}
