/** The cryptographic primitives the client calls, as a record of unknown functions with the
    few guarantees the logic above them relies on, and the length checks that
    CryptoHelpers.cpp performs before it calls them. */
module Primitives {
  import opened ByteStrings

  const KEY_BYTES := 32
  const NONCE_BYTES := 12
  const XNONCE_BYTES := 24
  const TAG_BYTES := 16
  const HASH_BYTES := 32
  const SALT_BYTES := 16

  datatype Functions = Functions(
    mac: (Bytes, Bytes) -> Bytes,
    seal: (Bytes, Bytes, Bytes, Bytes) -> Bytes,
    unseal: (Bytes, Bytes, Bytes, Bytes) -> Option<Bytes>,
    stretch: (Bytes, Bytes) -> Bytes)
  {
    /** HMAC-SHA-256 and Argon2id give 32 bytes; an AEAD ciphertext is 16 bytes longer than
        its plaintext and opens again under the same key, nonce and associated data. */
    ghost predicate Lawful() {
      && (forall k, d {:trigger mac(k, d)} :: |mac(k, d)| == HASH_BYTES)
      && (forall k, n, p, ad {:trigger seal(k, n, p, ad)} ::
            && |seal(k, n, p, ad)| == |p| + TAG_BYTES
            && unseal(k, n, seal(k, n, p, ad), ad) == Some(p))
      && (forall pw, salt {:trigger stretch(pw, salt)} :: |stretch(pw, salt)| == KEY_BYTES)
    }
  }

  /** A lawful instance: the guarantees are consistent. */
  function Toy(): (f: Functions)
    ensures f.Lawful()
  {
    Functions((k, d) => Zeros(32),
              (k, n, p, ad) => p + Zeros(16),
              (k, n, ct, ad) => if |ct| < 16 then None else Some(ct[..|ct| - 16]),
              (pw, salt) => Zeros(32))
  }

  type Suite = f: Functions | f.Lawful() ghost witness Toy()

  function Hmac(c: Suite, key: Bytes, data: Bytes): (r: Bytes)
    ensures |r| == if key == [] then 0 else HASH_BYTES
  {
    if key == [] then [] else c.mac(key, data)
  }

  /** `aeadEncrypt` and `xchachaEncryptLocal`, which differ only in the nonce size: empty on a
      key or nonce of the wrong size. */
  function AeadEncrypt(c: Suite, nonceBytes: nat, key: Bytes, nonce: Bytes, plaintext: Bytes, ad: Bytes): (r: Bytes)
    ensures |key| == KEY_BYTES && |nonce| == nonceBytes ==> |r| == |plaintext| + TAG_BYTES
  {
    if |key| != KEY_BYTES || |nonce| != nonceBytes then [] else c.seal(key, nonce, plaintext, ad)
  }

  function AeadDecrypt(c: Suite, nonceBytes: nat, key: Bytes, nonce: Bytes, ciphertext: Bytes, ad: Bytes)
    : (r: Option<Bytes>)
    ensures r.Some? ==> |key| == KEY_BYTES && |nonce| == nonceBytes && |ciphertext| >= TAG_BYTES
  {
    if |key| != KEY_BYTES || |nonce| != nonceBytes || |ciphertext| < TAG_BYTES then None
    else c.unseal(key, nonce, ciphertext, ad)
  }

  lemma AeadRoundTrip(c: Suite, nonceBytes: nat, key: Bytes, nonce: Bytes, plaintext: Bytes, ad: Bytes)
    requires |key| == KEY_BYTES && |nonce| == nonceBytes
    ensures
      var ciphertext := AeadEncrypt(c, nonceBytes, key, nonce, plaintext, ad);
      AeadDecrypt(c, nonceBytes, key, nonce, ciphertext, ad) == Some(plaintext)
  {
    assert |c.seal(key, nonce, plaintext, ad)| == |plaintext| + TAG_BYTES;
  }

  // ---- a sealing that depends on the key ----

  function TaggedSeal(key: Bytes, plaintext: Bytes): (r: Bytes)
    ensures |r| == |plaintext| + TAG_BYTES
  {
    plaintext + Zeros(15) + key[..if |key| > 0 then 1 else 0] + if key == [] then [0] else []
  }

  function TaggedUnseal(key: Bytes, ciphertext: Bytes): Option<Bytes> {
    if |ciphertext| < TAG_BYTES then None
    else
      var plaintext := ciphertext[..|ciphertext| - TAG_BYTES];
      if TaggedSeal(key, plaintext) == ciphertext then Some(plaintext) else None
  }

  lemma TaggedRoundTrip(key: Bytes, plaintext: Bytes)
    ensures TaggedUnseal(key, TaggedSeal(key, plaintext)) == Some(plaintext)
  {
    assert TaggedSeal(key, plaintext)[..|plaintext|] == plaintext;
  }

  lemma TaggedRejects(k: Bytes, k': Bytes, plaintext: Bytes)
    requires k != [] && k' != [] && k[0] != k'[0]
    ensures TaggedUnseal(k', TaggedSeal(k, plaintext)) == None
  {
    var n := |plaintext| + 15;
    assert TaggedSeal(k, plaintext)[..|plaintext|] == plaintext;
    assert TaggedSeal(k, plaintext)[n] == k[0] && TaggedSeal(k', plaintext)[n] == k'[0];
  }
}
