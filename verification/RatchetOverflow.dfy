/** What happens to a receiver whose counter overflows, the wrap-around standing for what C++
    leaves undefined. */
module RatchetOverflow {
  import opened ByteStrings
  import opened Primitives
  import opened Labels
  import opened RatchetMessage
  import opened RatchetSteps
  import opened RatchetProtocol
  import Hkdf
  import Runs

  /** The frame is numbered 2^31 - 1 and its ciphertext opens under that message's key. */
  predicate OpensLast(c: Suite, secret: Bytes, ad: Bytes, frame: Bytes) {
    |frame| >= MIN_FRAME_BYTES &&
    var m := Deserialize(frame).value;
    var key := MessageKey(c, ChainAt(c, BaseKey(c, secret), INT_MAX), INT_MAX);
    m.counter == INT_MAX && AeadDecrypt(c, NONCE_BYTES, key, m.nonce, m.ciphertext, ad).Some?
  }

  /** Whatever the primitives, in a reachable state a receive overflows, and takes the counter
      back, exactly when it is handed a frame that opens as message 2^31 - 1. */
  lemma CounterFallsIff(c: Suite, secret: Bytes, ad: Bytes, s: Session, frame: Bytes, callAd: Bytes)
    requires Derived(c, secret, ad, s)
    ensures DecryptStep(c, s, frame, callAd).0.receiveCounter < s.receiveCounter
       <==> OpensLast(c, secret, ad + callAd, frame)
    ensures Overflows(c, s, Decrypt(frame, callAd)) <==> OpensLast(c, secret, ad + callAd, frame)
  {
    SkippingIsStepping(c, BaseKey(c, secret), s.receiveCounter, INT_MAX);
  }

  /** The key under which a frame numbered 2^31 - 1 is opened again after it was accepted: that of
      the chain advanced past that number and then walked through all counters from -2^31. */
  function KeyAfterOverflow(c: Suite, secret: Bytes): Bytes {
    var past := Advance(c, ChainAt(c, BaseKey(c, secret), INT_MAX), INT_MAX);
    MessageKey(c, Walk(c, past, INT_MIN, INT_MAX), INT_MAX)
  }

  /** After an overflow, delivering the same frame again opens it exactly when its ciphertext also
      opens under that key. */
  lemma RedeliveryAfterOverflow(c: Suite, secret: Bytes, ad: Bytes, s: Session, frame: Bytes, callAd: Bytes)
    requires Derived(c, secret, ad, s) && Overflows(c, s, Decrypt(frame, callAd))
    ensures |frame| >= MIN_FRAME_BYTES
    ensures
      var m := Deserialize(frame).value;
      var s1 := DecryptStep(c, s, frame, callAd).0;
      DecryptStep(c, s1, frame, callAd).1
      == AeadDecrypt(c, NONCE_BYTES, KeyAfterOverflow(c, secret), m.nonce, m.ciphertext, ad + callAd)
  {
    DecryptEffect(c, secret, ad, s, frame, callAd);
    SkippingIsStepping(c, BaseKey(c, secret), s.receiveCounter, INT_MAX);
  }

  // ---- both can happen ----

  lemma {:induction false} WalkNonEmpty(c: Suite, chain: Bytes, from: int32, target: int32)
    requires chain != []
    ensures Walk(c, chain, from, target) != []
    decreases target as int - from as int
  {
    if from < target {
      WalkNonEmpty(c, Advance(c, chain, from), from + 1, target);
    }
  }

  /** With some primitives the frame is accepted twice. */
  lemma OverflowCanAcceptTwice()
    ensures exists c: Suite, frame ::
      var s := Initial(c, [1], []);
      var (s1, first) := DecryptStep(c, s, frame, []);
      first.Some? && DecryptStep(c, s1, frame, []).1.Some?
  {
    var c: Suite := Toy();
    var s := Initial(c, [1], []);
    var m := Message(INT_MAX, Zeros(NONCE_BYTES), Zeros(TAG_BYTES));
    DeserializeSerialize(m);
    WalkNonEmpty(c, s.receiveChain, 0, INT_MAX);
    RedeliveryAfterOverflow(c, [1], [], s, Serialize(m), []);
    WalkNonEmpty(c, Advance(c, ChainAt(c, BaseKey(c, [1]), INT_MAX), INT_MAX), INT_MIN, INT_MAX);
  }

  /** A hash that marks every key derived from this label, and all keys derived from those. */
  function MarkingMac(mark: Bytes, key: Bytes, data: Bytes): (r: Bytes)
    ensures |r| == HASH_BYTES
    ensures r[0] == if Marked(key) || data == mark then 1 else 0
  {
    [if Marked(key) || data == mark then 1 else 0] + Zeros(31)
  }

  predicate Marked(key: Bytes) {
    key != [] && key[0] == 1
  }

  function Marking(mark: Bytes): Functions {
    Functions((k, d) => MarkingMac(mark, k, d), (k, n, p, ad) => TaggedSeal(k, p),
              (k, n, ct, ad) => TaggedUnseal(k, ct), (pw, salt) => Zeros(32))
  }

  lemma MarkingIsLawful(mark: Bytes)
    ensures Marking(mark).Lawful()
  {
    forall k, p
      ensures TaggedUnseal(k, TaggedSeal(k, p)) == Some(p)
    {
      TaggedRoundTrip(k, p);
    }
  }

  /** The label of the last chain step, and no other label or text in use. */
  ghost predicate LastLabel(mark: Bytes) {
    && (forall n {:trigger ChainLabel(n)} :: ChainLabel(n) == mark <==> n == INT_MAX)
    && (forall n {:trigger MsgLabel(n)} :: MsgLabel(n) != mark)
    && forall data: Bytes :: data != [] && data[0] != 'c' as int ==> data != mark
  }

  lemma LastLabelIs(n: int)
    requires n == INT_MAX
    ensures LastLabel(ChainLabel(n))
  {
    forall m
      ensures ChainLabel(m) == ChainLabel(n) <==> m == n
      ensures MsgLabel(m) != ChainLabel(n)
    {
      LabelsUnambiguous(m, n);
    }
    assert ChainLabel(n)[0] == 'c' as int;
  }

  lemma {:induction false} MarkKept(c: Suite, mark: Bytes, chain: Bytes, from: int32, target: int32)
    requires c == Marking(mark) && LastLabel(mark) && chain != []
    ensures Walk(c, chain, from, target) != []
    ensures Marked(Walk(c, chain, from, target)) <==> Marked(chain)
    decreases target as int - from as int
  {
    if from < target {
      assert ChainLabel(from) != mark;
      MarkKept(c, mark, Advance(c, chain, from), from + 1, target);
    }
  }

  lemma OneBlock(c: Suite, secret: Bytes)
    requires secret != []
    ensures BaseKey(c, secret)
         == Hmac(c, Hkdf.Extract(c, Ascii("vox-ratchet-chain"), secret), Ascii("vox-e2ee-v1/chain") + [1])
  {
    var info := Ascii("vox-e2ee-v1/chain");
    var prk := Hkdf.Extract(c, Ascii("vox-ratchet-chain"), secret);
    assert Hkdf.T(c, prk, info, 0) + info + [1] == info + [1];
    var t := Hkdf.T(c, prk, info, 1);
    assert Hkdf.Blocks(c, prk, info, 0) == [];
    assert Hkdf.Blocks(c, prk, info, 1) == [] + t == t;
    assert t[..KEY_BYTES] == t;
  }

  lemma BaseUnmarked(c: Suite, mark: Bytes)
    requires c == Marking(mark) && LastLabel(mark)
    ensures BaseKey(c, [1]) != [] && !Marked(BaseKey(c, [1]))
  {
    OneBlock(c, [1]);
    var salt, data := Ascii("vox-ratchet-chain"), Ascii("vox-e2ee-v1/chain") + [1];
    assert salt[0] == 'v' as int && data[0] == 'v' as int;
  }

  lemma KeysDiffer(c: Suite, mark: Bytes)
    requires c == Marking(mark) && LastLabel(mark)
    ensures
      var key := MessageKey(c, ChainAt(c, BaseKey(c, [1]), INT_MAX), INT_MAX);
      key != [] && !Marked(key) && Marked(KeyAfterOverflow(c, [1]))
  {
    var base := BaseKey(c, [1]);
    BaseUnmarked(c, mark);
    SkippingIsStepping(c, base, 0, INT_MAX);
    MarkKept(c, mark, base, 0, INT_MAX);
    var chain := ChainAt(c, base, INT_MAX);
    LastLabelMarks(c, mark, chain, INT_MAX);
    var past := Advance(c, chain, INT_MAX);
    MarkKept(c, mark, past, INT_MIN, INT_MAX);
    MessageKeyMark(c, mark, chain, INT_MAX);
    MessageKeyMark(c, mark, Walk(c, past, INT_MIN, INT_MAX), INT_MAX);
  }

  lemma LastLabelMarks(c: Suite, mark: Bytes, chain: Bytes, n: int32)
    requires c == Marking(mark) && LastLabel(mark) && chain != [] && n == INT_MAX
    ensures Marked(Advance(c, chain, n))
  {
  }

  lemma MessageKeyMark(c: Suite, mark: Bytes, chain: Bytes, n: int32)
    requires c == Marking(mark) && LastLabel(mark) && chain != []
    ensures MessageKey(c, chain, n) != []
    ensures Marked(MessageKey(c, chain, n)) <==> Marked(chain)
  {
  }

  /** With others, even a genuine frame is accepted once and rejected when it is delivered again. */
  lemma OverflowCanRejectRedelivery()
    ensures exists c: Suite, frame ::
      var s := Initial(c, [1], []);
      var (s1, first) := DecryptStep(c, s, frame, []);
      first.Some? && DecryptStep(c, s1, frame, []).1 == None
  {
    var mark := ChainLabel(INT_MAX);
    LastLabelIs(INT_MAX);
    MarkingIsLawful(mark);
    var c: Suite := Marking(mark);
    KeysDiffer(c, mark);
    MaxFrameRejected(c, mark);
  }

  lemma MaxFrameRejected(c: Suite, mark: Bytes)
    requires c == Marking(mark)
    requires
      var key := MessageKey(c, ChainAt(c, BaseKey(c, [1]), INT_MAX), INT_MAX);
      key != [] && !Marked(key) && Marked(KeyAfterOverflow(c, [1]))
    ensures
      var frame := FrameOf(c, ChainAt(c, BaseKey(c, [1]), INT_MAX), INT_MAX, [], []);
      var (s1, first) := DecryptStep(c, Initial(c, [1], []), frame, []);
      first.Some? && DecryptStep(c, s1, frame, []).1 == None
  {
    var chain := ChainAt(c, BaseKey(c, [1]), INT_MAX);
    var frame := FrameOf(c, chain, INT_MAX, [], []);
    GenuineFrameEffect(c, [1], [], Initial(c, [1], []), INT_MAX, [], [], []);
    RedeliveryAfterOverflow(c, [1], [], Initial(c, [1], []), frame, []);
    var key := MessageKey(c, chain, INT_MAX);
    var nonce := Nonce(c, key);
    DeserializeSerialize(Message(INT_MAX, nonce, AeadEncrypt(c, NONCE_BYTES, key, nonce, [], [])));
    TaggedRejects(key, KeyAfterOverflow(c, [1]), []);
  }
}
