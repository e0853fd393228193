/** The session object, method by method, against the steps of RatchetSteps. */
module DoubleRatchet {
  import opened ByteStrings
  import opened Primitives
  import opened Labels
  import opened RatchetMessage
  import opened RatchetSteps
  import Hkdf

  class DoubleRatchetSession {
    const suite: Suite
    var rootKey: Bytes
    var sendChainKey: Bytes
    var receiveChainKey: Bytes
    var associatedData: Bytes
    var sendCounter: int32
    var receiveCounter: int32

    function State(): Session
      reads this
    {
      Session(rootKey, sendChainKey, receiveChainKey, associatedData, sendCounter, receiveCounter)
    }

    constructor FromSharedSecret(suite: Suite, sharedSecret: Bytes, associatedData: Bytes)
      ensures this.suite == suite
      ensures State() == Initial(suite, sharedSecret, associatedData)
    {
      var baseChainKey := Hkdf.HkdfSha256(
        suite, sharedSecret, Ascii("vox-ratchet-chain"), Ascii("vox-e2ee-v1/chain"), KEY_BYTES);
      this.suite := suite;
      this.rootKey := sharedSecret;
      this.associatedData := associatedData;
      this.sendChainKey := baseChainKey;
      this.receiveChainKey := baseChainKey;
      this.sendCounter := 0;
      this.receiveCounter := 0;
    }

    function NextMessageKey(sending: bool, counter: int32): Bytes
      reads this
    {
      Hmac(suite, if sending then sendChainKey else receiveChainKey, MsgLabel(counter))
    }

    method AdvanceChain(sending: bool, counter: int32)
      modifies this`sendChainKey, this`receiveChainKey
      ensures sendChainKey ==
              if sending then Advance(suite, old(sendChainKey), counter) else old(sendChainKey)
      ensures receiveChainKey ==
              if sending then old(receiveChainKey) else Advance(suite, old(receiveChainKey), counter)
    {
      if sending {
        sendChainKey := Hmac(suite, sendChainKey, ChainLabel(counter));
      } else {
        receiveChainKey := Hmac(suite, receiveChainKey, ChainLabel(counter));
      }
    }

    // A non-empty message key always seals, so the source's check for an empty ciphertext has
    // no counterpart.
    method EncryptMessage(plaintext: Bytes, ad: Bytes) returns (frame: Option<Bytes>)
      modifies this`sendChainKey, this`sendCounter, this`receiveChainKey
      ensures (State(), frame) == EncryptStep(suite, old(State()), plaintext, ad)
    {
      var messageKey := NextMessageKey(true, sendCounter);
      if messageKey == [] {
        return None;
      }
      var nonce := Nonce(suite, messageKey);
      var ciphertext := AeadEncrypt(suite, NONCE_BYTES, messageKey, nonce, plaintext, associatedData + ad);
      var message := Message(sendCounter, nonce, ciphertext);
      AdvanceChain(true, sendCounter);
      sendCounter := Increment(sendCounter);
      frame := Some(Serialize(message));
    }

    method DecryptMessage(frame: Bytes, ad: Bytes) returns (plaintext: Option<Bytes>)
      modifies this`receiveChainKey, this`receiveCounter, this`sendChainKey
      ensures (State(), plaintext) == DecryptStep(suite, old(State()), frame, ad)
    {
      var parsed := Deserialize(frame);
      if parsed.None? || parsed.value.counter < receiveCounter {
        return None;
      }
      var counter := parsed.value.counter;
      while receiveCounter < counter
        invariant receiveCounter <= counter
        invariant sendChainKey == old(sendChainKey)
        invariant Walk(suite, receiveChainKey, receiveCounter, counter)
               == Walk(suite, old(receiveChainKey), old(receiveCounter), counter)
      {
        AdvanceChain(false, receiveCounter);
        receiveCounter := receiveCounter + 1;
      }
      var messageKey := NextMessageKey(false, counter);
      plaintext := AeadDecrypt(
        suite, NONCE_BYTES, messageKey, parsed.value.nonce, parsed.value.ciphertext, associatedData + ad);
      if plaintext.None? {
        return None;
      }
      AdvanceChain(false, counter);
      receiveCounter := Increment(counter);
    }
  }
}
