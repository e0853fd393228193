/** What one call of a ratchet session does to its fields, and what a run of calls does. */
module RatchetSteps {
  import opened ByteStrings
  import opened Primitives
  import opened Labels
  import opened RatchetMessage
  import Hkdf
  import Runs

  /** The fields of a session. */
  datatype Session = Session(
    rootKey: Bytes,
    sendChain: Bytes,
    receiveChain: Bytes,
    associatedData: Bytes,
    sendCounter: int32,
    receiveCounter: int32)

  function BaseKey(c: Suite, secret: Bytes): (k: Bytes)
    ensures |k| == if secret == [] then 0 else KEY_BYTES
  {
    Hkdf.Derive(c, secret, Ascii("vox-ratchet-chain"), Ascii("vox-e2ee-v1/chain"), KEY_BYTES)
  }

  function Initial(c: Suite, secret: Bytes, ad: Bytes): Session {
    Session(secret, BaseKey(c, secret), BaseKey(c, secret), ad, 0, 0)
  }

  function Advance(c: Suite, chain: Bytes, counter: int32): Bytes {
    Hmac(c, chain, ChainLabel(counter))
  }

  function MessageKey(c: Suite, chain: Bytes, counter: int32): Bytes {
    Hmac(c, chain, MsgLabel(counter))
  }

  function Nonce(c: Suite, messageKey: Bytes): (n: Bytes)
    ensures messageKey != [] ==> |n| == NONCE_BYTES
  {
    var digest := Hmac(c, messageKey, Ascii("nonce"));
    if |digest| < NONCE_BYTES then digest else digest[..NONCE_BYTES]
  }

  /** The chain key after catching up from one counter to another. */
  function Walk(c: Suite, chain: Bytes, from: int32, target: int32): Bytes
    decreases target as int - from as int
  {
    if from >= target then chain else Walk(c, Advance(c, chain, from), from + 1, target)
  }

  /** The frame that carries `plaintext` as message number `counter` of the chain key `chain`. */
  function FrameOf(c: Suite, chain: Bytes, counter: int32, plaintext: Bytes, ad: Bytes): Bytes {
    var key := MessageKey(c, chain, counter);
    Serialize(Message(counter, Nonce(c, key), AeadEncrypt(c, NONCE_BYTES, key, Nonce(c, key), plaintext, ad)))
  }

  function EncryptStep(c: Suite, s: Session, plaintext: Bytes, ad: Bytes): (Session, Option<Bytes>) {
    if s.sendChain == [] then (s, None)
    else (s.(sendChain := Advance(c, s.sendChain, s.sendCounter), sendCounter := Increment(s.sendCounter)),
          Some(FrameOf(c, s.sendChain, s.sendCounter, plaintext, s.associatedData + ad)))
  }

  /** A frame that is too short or behind the receive counter changes nothing. Any other frame
      moves the receive chain up to its counter before it is authenticated. */
  function DecryptStep(c: Suite, s: Session, frame: Bytes, ad: Bytes): (Session, Option<Bytes>) {
    match Deserialize(frame)
    case None => (s, None)
    case Some(m) =>
      if m.counter < s.receiveCounter then (s, None)
      else
        var chain := Walk(c, s.receiveChain, s.receiveCounter, m.counter);
        var plaintext :=
          AeadDecrypt(c, NONCE_BYTES, MessageKey(c, chain, m.counter), m.nonce, m.ciphertext, s.associatedData + ad);
        if plaintext.None? then (s.(receiveChain := chain, receiveCounter := m.counter), None)
        else (s.(receiveChain := Advance(c, chain, m.counter), receiveCounter := Increment(m.counter)), plaintext)
  }

  // ---- runs ----

  datatype Call =
    | Encrypt(plaintext: Bytes, ad: Bytes)
    | Decrypt(frame: Bytes, ad: Bytes)

  function Step(c: Suite, s: Session, call: Call): (Session, Option<Bytes>) {
    match call
    case Encrypt(plaintext, ad) => EncryptStep(c, s, plaintext, ad)
    case Decrypt(frame, ad) => DecryptStep(c, s, frame, ad)
  }

  function Next(c: Suite): (Session, Call) -> Session {
    (s, call) => Step(c, s, call).0
  }

  function Run(c: Suite, s: Session, calls: seq<Call>): Session {
    Runs.Run(Next(c), s, calls)
  }

  /** The state in which call `i` of a run is made, and its answer. */
  function StateAt(c: Suite, s: Session, calls: seq<Call>, i: nat): Session
    requires i <= |calls|
  {
    Runs.At(Next(c), s, calls, i)
  }

  function AnswerAt(c: Suite, s: Session, calls: seq<Call>, i: nat): Option<Bytes>
    requires i < |calls|
  {
    Step(c, StateAt(c, s, calls, i), calls[i]).1
  }

  /** The call increments a counter that holds 2^31 - 1. */
  predicate Overflows(c: Suite, s: Session, call: Call) {
    Step(c, s, call).1.Some? &&
    match call
    case Encrypt(_, _) => s.sendCounter == INT_MAX
    case Decrypt(frame, _) => |frame| >= MIN_FRAME_BYTES && Deserialize(frame).value.counter == INT_MAX
  }

  function Safe(c: Suite): (Session, Call) -> bool {
    (s, call) => !Overflows(c, s, call)
  }

  /** No call of the run overflows a counter, which C++ leaves undefined. */
  ghost predicate Defined(c: Suite, s: Session, calls: seq<Call>) {
    Runs.Guarded(Next(c), Safe(c), s, calls)
  }
}
