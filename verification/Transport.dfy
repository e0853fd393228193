/** How message text is wrapped for the wire and unwrapped for display. */
module Transport {
  import opened ByteStrings
  import Base64

  /** `QString::fromUtf8` seen on bytes: ill-formed input is repaired, and a byte order mark at
      the start may be skipped. Nothing is assumed of it. */
  datatype Utf8 = Utf8(fromUtf8: Bytes -> Bytes)

  /** The decoder leaves these bytes alone. */
  predicate IsText(u: Utf8, t: Bytes) {
    u.fromUtf8(t) == t
  }

  const MARKER: Bytes := Ascii("vox1:")

  /** The length of the white-space character a text starts with, 0 if it starts with none:
      the code points of `QChar::isSpace` in UTF-8. */
  function SpaceLength(t: Text): (n: nat)
    ensures n <= |t|
  {
    if |t| >= 1 && (9 <= t[0] <= 13 || t[0] == 32) then 1
    else if |t| >= 2 && t[0] == 0xC2 && (t[1] == 0x85 || t[1] == 0xA0) then 2
    else if |t| >= 3 && (
              || (t[0] == 0xE1 && t[1] == 0x9A && t[2] == 0x80)
              || (t[0] == 0xE2 && t[1] == 0x80 && (0x80 <= t[2] <= 0x8A || 0xA8 <= t[2] <= 0xA9 || t[2] == 0xAF))
              || (t[0] == 0xE2 && t[1] == 0x81 && t[2] == 0x9F)
              || (t[0] == 0xE3 && t[1] == 0x80 && t[2] == 0x80)) then 3
    else 0
  }

  /** A code point of the basic plane in UTF-8. */
  function Utf8Of(cp: nat): (b: Bytes)
    requires cp < 0x1_0000
    ensures 1 <= |b| <= 3
  {
    if cp < 0x80 then [cp]
    else if cp < 0x800 then [0xC0 + cp / 0x40, 0x80 + cp % 0x40]
    else [0xE0 + cp / 0x1000, 0x80 + cp / 0x40 % 0x40, 0x80 + cp % 0x40]
  }

  /** White space as `QChar::isSpace` has it. */
  predicate IsSpace(cp: nat) {
    || 9 <= cp <= 13 || cp == 0x20 || cp == 0x85 || cp == 0xA0 || cp == 0x1680
    || 0x2000 <= cp <= 0x200A || cp == 0x2028 || cp == 0x2029 || cp == 0x202F || cp == 0x205F || cp == 0x3000
  }

  /** The byte patterns are those of the white space characters. */
  lemma SpaceLengthIff(cp: nat, rest: Text)
    requires cp < 0x1_0000
    ensures SpaceLength(Utf8Of(cp) + rest) == if IsSpace(cp) then |Utf8Of(cp)| else 0
  {
    var t := Utf8Of(cp) + rest;
    if cp < 0x80 {
      assert t[0] == cp;
    } else if cp < 0x800 {
      assert t[0] == 0xC0 + cp / 0x40 && t[1] == 0x80 + cp % 0x40;
    } else {
      var high, mid, low := cp / 0x1000, cp / 0x40 % 0x40, cp % 0x40;
      assert t[0] == 0xE0 + high && t[1] == 0x80 + mid && t[2] == 0x80 + low;
      assert cp == high * 0x1000 + mid * 0x40 + low;
    }
  }

  /** `trimmed().isEmpty()` */
  predicate Blank(t: Text)
    decreases |t|
  {
    t == [] || (SpaceLength(t) > 0 && Blank(t[SpaceLength(t)..]))
  }

  function EncryptForTransport(plaintext: Text): Text {
    MARKER + Base64.Encode(Base64.Standard, plaintext)
  }

  function Decoded(u: Utf8, b: Bytes): Option<Text> {
    var d := Base64.Decode(Base64.Standard, b);
    if d == [] then None else Some(u.fromUtf8(d))
  }

  /** What is displayed for a received text. */
  function Displayed(u: Utf8, ciphertext: Text): Option<Text> {
    if Blank(ciphertext) then Some([])
    else if HasPrefix(ciphertext, MARKER) && Decoded(u, ciphertext[|MARKER|..]).Some? then
      Decoded(u, ciphertext[|MARKER|..])
    else if 0 !in ciphertext then Some(ciphertext)
    else Decoded(u, ciphertext)
  }

  method DecryptForUi(u: Utf8, ciphertext: Text) returns (r: Option<Text>)
    ensures r == Displayed(u, ciphertext)
  {
    if Blank(ciphertext) {
      return Some([]);
    }
    if HasPrefix(ciphertext, MARKER) {
      var decoded := Base64.Decode(Base64.Standard, ciphertext[|MARKER|..]);
      if decoded != [] {
        return Some(u.fromUtf8(decoded));
      }
    }
    var looksPlain := true;
    for i := 0 to |ciphertext|
      invariant looksPlain
      invariant 0 !in ciphertext[..i]
    {
      if ciphertext[i] == 0 {
        looksPlain := false;
        break;
      }
    }
    if looksPlain {
      return Some(ciphertext);
    }
    var decoded := Base64.Decode(Base64.Standard, ciphertext);
    if decoded != [] {
      return Some(u.fromUtf8(decoded));
    }
    return None;
  }

  /** A wrapped text is the marker and the text's bytes in standard base64. */
  lemma WireForm(plaintext: Text)
    ensures EncryptForTransport(plaintext) == Ascii("vox1:") + Base64.Encode(Base64.Standard, plaintext)
  {
  }

  /** What is displayed, case by case: nothing for a blank text; the decoded bytes for one that is
      marked and decodes, or that holds a NUL and decodes; otherwise the text itself, unless it
      holds a NUL. */
  lemma DisplayedCases(u: Utf8, t: Text)
    ensures
      var marked := |t| >= 5 && t[..5] == Ascii("vox1:") && Base64.Decode(Base64.Standard, t[5..]) != [];
      Displayed(u, t) ==
        if Blank(t) then Some([])
        else if marked then Some(u.fromUtf8(Base64.Decode(Base64.Standard, t[5..])))
        else if 0 !in t then Some(t)
        else if Base64.Decode(Base64.Standard, t) != [] then Some(u.fromUtf8(Base64.Decode(Base64.Standard, t)))
        else None
  {
    assert |MARKER| == 5;
    assert HasPrefix(t, MARKER) <==> |t| >= 5 && t[..5] == MARKER;
  }

  /** Wrapping and unwrapping decodes the text's bytes once more, so it gives the text back exactly
      when it is not empty and the decoder leaves it alone. The empty text comes back as the bare
      marker. */
  lemma TransportRoundTrip(u: Utf8, plaintext: Text)
    ensures Displayed(u, EncryptForTransport(plaintext))
         == Some(if plaintext == [] then MARKER else u.fromUtf8(plaintext))
    ensures Displayed(u, EncryptForTransport(plaintext)) == Some(plaintext) <==>
              plaintext != [] && IsText(u, plaintext)
  {
    var wire := EncryptForTransport(plaintext);
    assert wire[0] == 'v' as int;
    assert wire[|MARKER|..] == Base64.Encode(Base64.Standard, plaintext);
    Base64.RoundTrip(Base64.Standard, plaintext);
    if plaintext == [] {
      assert wire == MARKER;
      assert forall i :: 0 <= i < |MARKER| ==> MARKER[i] == "vox1:"[i] as int;
    }
  }

  const BYTE_ORDER_MARK: Bytes := [0xEF, 0xBB, 0xBF]

  /** So a decoder that skips a byte order mark at the start loses it from a text that has one. */
  lemma ByteOrderMarkLost(u: Utf8, rest: Text)
    requires u.fromUtf8(BYTE_ORDER_MARK + rest) == rest
    ensures Displayed(u, EncryptForTransport(BYTE_ORDER_MARK + rest)) == Some(rest) != Some(BYTE_ORDER_MARK + rest)
  {
    TransportRoundTrip(u, BYTE_ORDER_MARK + rest);
    assert |BYTE_ORDER_MARK + rest| == |rest| + 3;
  }

  /** Text that was never wrapped is displayed as it is. */
  lemma PlainTextUnchanged(u: Utf8, t: Text)
    requires !Blank(t) && 0 !in t
    requires !HasPrefix(t, MARKER) || Base64.Decode(Base64.Standard, t[|MARKER|..]) == []
    ensures Displayed(u, t) == Some(t)
  {
  }

  /** Nothing is displayed for a text only when it holds a NUL and no base64. */
  lemma NothingDisplayedIff(u: Utf8, t: Text)
    ensures Displayed(u, t) == None <==>
              && 0 in t && Base64.Decode(Base64.Standard, t) == []
              && !(HasPrefix(t, MARKER) && Base64.Decode(Base64.Standard, t[|MARKER|..]) != [])
  {
    if 0 in t {
      NulNotBlank(t);
    }
  }

  lemma {:induction false} NulNotBlank(t: Text)
    requires 0 in t
    ensures !Blank(t)
    decreases |t|
  {
    var n := SpaceLength(t);
    if n > 0 {
      var i :| 0 <= i < |t| && t[i] == 0;
      assert i >= n;
      assert t[n..][i - n] == 0;
      NulNotBlank(t[n..]);
    }
  }
}
