/** The keys and frames of a session in terms of the primitives themselves: what is hashed under
    what, and what is sealed with what. */
module RatchetKeys {
  import opened ByteStrings
  import opened Primitives
  import opened Labels
  import opened RatchetMessage
  import opened RatchetSteps
  import opened RatchetProtocol
  import Hkdf

  /** Both chains begin with one block of HKDF over the shared secret. */
  lemma BaseKeyBytes(c: Suite, secret: Bytes)
    requires secret != []
    ensures BaseKey(c, secret)
         == c.mac(c.mac(Ascii("vox-ratchet-chain"), secret), Ascii("vox-e2ee-v1/chain") + [1])
  {
    var salt, info := Ascii("vox-ratchet-chain"), Ascii("vox-e2ee-v1/chain");
    assert |salt| == 17;
    Hkdf.BlocksChain(c, secret, salt, info, 32, 1);
    assert [] + info + [1] == info + [1];
  }

  /** A chain key is the one before it, hashed over its number. */
  lemma ChainKeyBytes(c: Suite, base: Bytes, n: nat)
    requires base != [] && n <= INT_MAX
    ensures ChainAt(c, base, 0) == base
    ensures ChainAt(c, base, n + 1) == c.mac(ChainAt(c, base, n), Ascii("chain:") + Number(n))
  {
    LabelText(n);
  }

  /** The key, nonce and box of message n. */
  function KeyBytes(c: Suite, secret: Bytes, n: int32): Bytes
    requires 0 <= n
  {
    c.mac(ChainAt(c, BaseKey(c, secret), n), Ascii("msg:") + Number(n))
  }

  lemma KeyIs(c: Suite, secret: Bytes, n: int32)
    requires secret != [] && 0 <= n
    ensures MessageKey(c, ChainAt(c, BaseKey(c, secret), n), n) == KeyBytes(c, secret, n)
    ensures |KeyBytes(c, secret, n)| == 32
  {
    LabelText(n);
  }

  /** What a session with a secret sends: the frame of its counter, with the nonce hashed under the
      message key, and the plaintext sealed under key, nonce and both parts of the associated
      data. The key opens it again. */
  lemma SentFrame(c: Suite, secret: Bytes, ad: Bytes, s: Session, plaintext: Bytes, callAd: Bytes)
    requires Derived(c, secret, ad, s) && secret != []
    ensures
      var (s', frame) := EncryptStep(c, s, plaintext, callAd);
      var key := KeyBytes(c, secret, s.sendCounter);
      var nonce := c.mac(key, Ascii("nonce"))[..12];
      var box := c.seal(key, nonce, plaintext, ad + callAd);
      && frame.Some? && Deserialize(frame.value) == Some(Message(s.sendCounter, nonce, box))
      && c.unseal(key, nonce, box, ad + callAd) == Some(plaintext)
      && s'.sendChain == c.mac(s.sendChain, Ascii("chain:") + Number(s.sendCounter))
      && s' == s.(sendChain := s'.sendChain, sendCounter := Increment(s.sendCounter))
  {
    var key := KeyBytes(c, secret, s.sendCounter);
    KeyIs(c, secret, s.sendCounter);
    LabelText(s.sendCounter);
    var nonce := c.mac(key, Ascii("nonce"))[..12];
    var box := c.seal(key, nonce, plaintext, ad + callAd);
    assert |box| == |plaintext| + TAG_BYTES;
    DeserializeSerialize(Message(s.sendCounter, nonce, box));
  }

  /** What a session answers to a frame that is long enough and not behind: the frame's box opened
      under the key of the frame's number, its nonce and both parts of the associated data. */
  lemma ReceivedFrame(c: Suite, secret: Bytes, ad: Bytes, s: Session, frame: Bytes, callAd: Bytes)
    requires Derived(c, secret, ad, s) && secret != []
    requires |frame| >= 32 && Deserialize(frame).value.counter >= s.receiveCounter
    ensures
      var n := Deserialize(frame).value.counter;
      DecryptStep(c, s, frame, callAd).1
      == c.unseal(KeyBytes(c, secret, n), frame[4..16], frame[16..], ad + callAd)
  {
    DecryptEffect(c, secret, ad, s, frame, callAd);
    KeyIs(c, secret, Deserialize(frame).value.counter);
  }
}
