/** The ratchet's frame: a big-endian 32-bit counter, a 12-byte nonce and the ciphertext. */
module RatchetMessage {
  import opened ByteStrings
  import opened Primitives

  const COUNTER_BYTES := 4
  const HEADER_BYTES := COUNTER_BYTES + NONCE_BYTES
  const MIN_FRAME_BYTES := HEADER_BYTES + TAG_BYTES

  datatype Message = Message(counter: int32, nonce: Bytes, ciphertext: Bytes)

  /** `static_cast<quint32>` of an `int`. */
  function Unsigned(i: int32): (u: nat)
    ensures u < 0x1_0000_0000
  {
    i % 0x1_0000_0000
  }

  /** `static_cast<int>` of a `quint32`. */
  function Signed(u: nat): (i: int32)
    requires u < 0x1_0000_0000
    ensures Unsigned(i) == u
  {
    if u <= INT_MAX then u else u - 0x1_0000_0000
  }

  /** 256 to the power of n. */
  function Limit(n: nat): (l: nat)
    ensures l > 0
  {
    if n == 0 then 1 else 256 * Limit(n - 1)
  }

  function BigEndian(u: nat, n: nat): (r: Bytes)
    ensures |r| == n
  {
    if n == 0 then [] else BigEndian(u / 256, n - 1) + [u % 256]
  }

  function FromBigEndian(b: Bytes): (u: nat)
    ensures u < Limit(|b|)
  {
    if b == [] then 0 else FromBigEndian(b[..|b| - 1]) * 256 + b[|b| - 1] as int
  }

  lemma {:induction false} FromToBigEndian(u: nat, n: nat)
    requires u < Limit(n)
    ensures FromBigEndian(BigEndian(u, n)) == u
  {
    if n > 0 {
      FromToBigEndian(u / 256, n - 1);
      assert BigEndian(u, n)[..n - 1] == BigEndian(u / 256, n - 1);
    }
  }

  lemma {:induction false} ToFromBigEndian(b: Bytes)
    ensures BigEndian(FromBigEndian(b), |b|) == b
  {
    if b != [] {
      var n := |b| - 1;
      ToFromBigEndian(b[..n]);
      assert FromBigEndian(b) / 256 == FromBigEndian(b[..n]) && FromBigEndian(b) % 256 == b[n];
    }
  }

  /** Four bytes hold exactly the 32-bit numbers. */
  lemma FourBytes()
    ensures Limit(COUNTER_BYTES) == 0x1_0000_0000
  {
    assert Limit(2) == 256 * Limit(1);
  }

  function Serialize(m: Message): Bytes {
    BigEndian(Unsigned(m.counter), COUNTER_BYTES) + m.nonce + m.ciphertext
  }

  function Deserialize(b: Bytes): (m: Option<Message>)
    ensures m.Some? <==> |b| >= MIN_FRAME_BYTES
  {
    if |b| < MIN_FRAME_BYTES then None
    else
      FourBytes();
      Some(Message(Signed(FromBigEndian(b[..COUNTER_BYTES])), b[COUNTER_BYTES..HEADER_BYTES], b[HEADER_BYTES..]))
  }

  lemma FourByteValue(b: Bytes)
    requires |b| == 4
    ensures FromBigEndian(b) == b[0] as int * 0x100_0000 + b[1] as int * 0x1_0000 + b[2] as int * 0x100 + b[3] as int
  {
    assert b[..3][..2] == b[..2] && b[..2][..1] == b[..1] && b[..1][..0] == [];
    assert FromBigEndian(b[..1]) == b[0] as int;
    assert FromBigEndian(b[..2]) == b[0] as int * 0x100 + b[1] as int;
    assert FromBigEndian(b[..3]) == b[0] as int * 0x1_0000 + b[1] as int * 0x100 + b[2] as int;
  }

  /** The bytes of a frame: the counter with its highest byte first, then nonce and ciphertext. */
  lemma FrameLayout(m: Message)
    ensures
      var b := Serialize(m);
      && |b| == 4 + |m.nonce| + |m.ciphertext|
      && b[0] as int * 0x100_0000 + b[1] as int * 0x1_0000 + b[2] as int * 0x100 + b[3] as int
         == (if m.counter < 0 then m.counter + 0x1_0000_0000 else m.counter)
      && b[4..4 + |m.nonce|] == m.nonce && b[4 + |m.nonce|..] == m.ciphertext
  {
    var u, b := Unsigned(m.counter), Serialize(m);
    FourBytes();
    FromToBigEndian(u, 4);
    assert b[..4] == BigEndian(u, 4);
    FourByteValue(b[..4]);
  }

  /** A message with a 12-byte nonce and room for a tag survives the trip, whatever its counter. */
  lemma DeserializeSerialize(m: Message)
    requires |m.nonce| == NONCE_BYTES && |m.ciphertext| >= TAG_BYTES
    ensures Deserialize(Serialize(m)) == Some(m)
  {
    var b := Serialize(m);
    var u := Unsigned(m.counter);
    FourBytes();
    FromToBigEndian(u, COUNTER_BYTES);
    assert b[..COUNTER_BYTES] == BigEndian(u, COUNTER_BYTES);
    assert b[COUNTER_BYTES..HEADER_BYTES] == m.nonce;
    assert b[HEADER_BYTES..] == m.ciphertext;
  }

  /** Every long enough byte string is the frame of exactly the message it parses to. */
  lemma SerializeDeserialize(b: Bytes)
    requires |b| >= MIN_FRAME_BYTES
    ensures Serialize(Deserialize(b).value) == b
    ensures |Deserialize(b).value.nonce| == NONCE_BYTES && |Deserialize(b).value.ciphertext| >= TAG_BYTES
  {
    FourBytes();
    ToFromBigEndian(b[..COUNTER_BYTES]);
    assert b == b[..COUNTER_BYTES] + b[COUNTER_BYTES..HEADER_BYTES] + b[HEADER_BYTES..];
  }

  /** Parsing never identifies two different frames. */
  lemma DeserializeInjective(a: Bytes, b: Bytes)
    requires Deserialize(a) == Deserialize(b) && Deserialize(a).Some?
    ensures a == b
  {
    SerializeDeserialize(a);
    SerializeDeserialize(b);
  }
}
