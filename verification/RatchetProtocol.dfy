/** What holds of every run of two sessions that share a secret and exchange frames over a
    channel that may lose, repeat, reorder or replace them. A receiver's run is any sequence of
    calls with any byte strings, so every behaviour of the channel is one of its runs. */
module RatchetProtocol {
  import opened ByteStrings
  import opened Primitives
  import opened RatchetMessage
  import opened RatchetSteps
  import Runs

  /** The base key advanced n times. */
  function ChainAt(c: Suite, base: Bytes, n: nat): (k: Bytes)
    requires n <= INT_MAX + 1
    ensures k == [] <==> base == []
  {
    if n == 0 then base else Advance(c, ChainAt(c, base, n - 1), n - 1)
  }

  /** Both chain keys are the base key advanced as often as the counters say. */
  predicate Derived(c: Suite, secret: Bytes, ad: Bytes, s: Session) {
    && 0 <= s.sendCounter && 0 <= s.receiveCounter
    && s == Session(secret, ChainAt(c, BaseKey(c, secret), s.sendCounter),
                    ChainAt(c, BaseKey(c, secret), s.receiveCounter), ad, s.sendCounter, s.receiveCounter)
  }

  /** Catching up in one call is stepping one message at a time. */
  lemma {:induction false} SkippingIsStepping(c: Suite, base: Bytes, i: int32, j: int32)
    requires 0 <= i <= j
    ensures Walk(c, ChainAt(c, base, i), i, j) == ChainAt(c, base, j)
    decreases j as int - i as int
  {
    if i < j {
      assert ChainAt(c, base, i + 1) == Advance(c, ChainAt(c, base, i), i);
      SkippingIsStepping(c, base, i + 1, j);
    }
  }

  /** What `decrypt` does in a reachable state, rejected frames included. */
  lemma DecryptEffect(c: Suite, secret: Bytes, ad: Bytes, s: Session, frame: Bytes, callAd: Bytes)
    requires Derived(c, secret, ad, s)
    ensures
      var (s', answer) := DecryptStep(c, s, frame, callAd);
      match Deserialize(frame)
      case None => s' == s && answer == None
      case Some(m) =>
        if m.counter < s.receiveCounter then s' == s && answer == None
        else
          var chain := ChainAt(c, BaseKey(c, secret), m.counter);
          && answer == AeadDecrypt(c, NONCE_BYTES, MessageKey(c, chain, m.counter), m.nonce, m.ciphertext, ad + callAd)
          && s' == s.(receiveChain := s'.receiveChain, receiveCounter := s'.receiveCounter)
          && (answer.None? ==> s'.receiveCounter == m.counter && s'.receiveChain == chain)
          && (answer.Some? && m.counter < INT_MAX ==>
                s'.receiveCounter == m.counter + 1
                && s'.receiveChain == ChainAt(c, BaseKey(c, secret), m.counter + 1))
  {
    if |frame| >= MIN_FRAME_BYTES {
      var n := Deserialize(frame).value.counter;
      if n >= s.receiveCounter {
        SkippingIsStepping(c, BaseKey(c, secret), s.receiveCounter, n);
      }
    }
  }

  lemma StepKeepsDerived(c: Suite, secret: Bytes, ad: Bytes, s: Session, call: Call)
    requires Derived(c, secret, ad, s) && !Overflows(c, s, call)
    ensures Derived(c, secret, ad, Step(c, s, call).0)
  {
    if call.Decrypt? {
      DecryptEffect(c, secret, ad, s, call.frame, call.ad);
    }
  }

  /** In every state reached by any interleaving of calls, failing ones included, the chain
      keys are the base key advanced as often as the counters say. */
  lemma ReachableIsDerived(c: Suite, secret: Bytes, ad: Bytes, calls: seq<Call>, i: nat)
    requires Defined(c, Initial(c, secret, ad), calls) && i <= |calls|
    ensures Derived(c, secret, ad, StateAt(c, Initial(c, secret, ad), calls, i))
  {
    var inv := (s: Session) => Derived(c, secret, ad, s);
    forall s, call | inv(s) && Safe(c)(s, call)
      ensures inv(Next(c)(s, call))
    {
      StepKeepsDerived(c, secret, ad, s, call);
    }
    Runs.Invariant(Next(c), Safe(c), inv, Initial(c, secret, ad), calls, i);
  }

  lemma FinalIsDerived(c: Suite, secret: Bytes, ad: Bytes, calls: seq<Call>)
    requires Defined(c, Initial(c, secret, ad), calls)
    ensures Derived(c, secret, ad, Run(c, Initial(c, secret, ad), calls))
  {
    ReachableIsDerived(c, secret, ad, calls, |calls|);
    Runs.AtEnds(Next(c), Initial(c, secret, ad), calls);
  }

  /** Whatever the two histories were, equal counters mean equal sessions. */
  lemma StateIsItsCounters(c: Suite, secret: Bytes, ad: Bytes, calls: seq<Call>, calls': seq<Call>)
    requires Defined(c, Initial(c, secret, ad), calls) && Defined(c, Initial(c, secret, ad), calls')
    ensures
      var s, s' := Run(c, Initial(c, secret, ad), calls), Run(c, Initial(c, secret, ad), calls');
      s == s' <==> s.sendCounter == s'.sendCounter && s.receiveCounter == s'.receiveCounter
  {
    FinalIsDerived(c, secret, ad, calls);
    FinalIsDerived(c, secret, ad, calls');
  }

  // ---- the two directions ----

  function SendingSide(s: Session): (Bytes, Bytes, int32) {
    (s.associatedData, s.sendChain, s.sendCounter)
  }

  function ReceivingSide(s: Session): (Bytes, Bytes, int32) {
    (s.associatedData, s.receiveChain, s.receiveCounter)
  }

  /** Dropping every receive leaves the sending side of the final state as it was, and dropping
      every send leaves the receiving side as it was. */
  lemma DirectionsIndependent(c: Suite, s: Session, calls: seq<Call>)
    ensures SendingSide(Run(c, s, calls)) == SendingSide(Run(c, s, Runs.Filter((e: Call) => e.Encrypt?, calls)))
    ensures ReceivingSide(Run(c, s, calls)) == ReceivingSide(Run(c, s, Runs.Filter((e: Call) => e.Decrypt?, calls)))
  {
    Runs.FilterKeeps(Next(c), (e: Call) => e.Encrypt?, SendingSide, s, calls);
    Runs.FilterKeeps(Next(c), (e: Call) => e.Decrypt?, ReceivingSide, s, calls);
  }

  // ---- delivery ----

  /** A session that has a secret always encrypts, and its n-th frame depends only on the
      secret, n, the plaintext and the combined associated data. */
  lemma EncryptEmits(c: Suite, secret: Bytes, ad: Bytes, s: Session, plaintext: Bytes, callAd: Bytes)
    requires Derived(c, secret, ad, s)
    ensures EncryptStep(c, s, plaintext, callAd).1
         == if secret == [] then None
            else Some(FrameOf(c, ChainAt(c, BaseKey(c, secret), s.sendCounter), s.sendCounter, plaintext, ad + callAd))
    ensures secret != [] && s.sendCounter < INT_MAX ==>
              var s' := EncryptStep(c, s, plaintext, callAd).0;
              Derived(c, secret, ad, s') && s'.sendCounter == s.sendCounter + 1
  {
  }

  /** A genuine frame delivered in a reachable state. */
  lemma GenuineFrameEffect(c: Suite, secret: Bytes, ad: Bytes, s: Session,
                           n: int32, plaintext: Bytes, combinedAd: Bytes, callAd: Bytes)
    requires Derived(c, secret, ad, s) && secret != [] && 0 <= n
    requires combinedAd == ad + callAd
    ensures
      var frame := FrameOf(c, ChainAt(c, BaseKey(c, secret), n), n, plaintext, combinedAd);
      var (s', answer) := DecryptStep(c, s, frame, callAd);
      && |frame| >= MIN_FRAME_BYTES && Deserialize(frame).value.counter == n
      && (n >= s.receiveCounter ==> answer == Some(plaintext))
      && (n < s.receiveCounter ==> answer == None && s' == s)
      && (n < INT_MAX ==>
            && Derived(c, secret, ad, s')
            && s'.receiveCounter == if n >= s.receiveCounter then n + 1 else s.receiveCounter)
  {
    var chain := ChainAt(c, BaseKey(c, secret), n);
    var key := MessageKey(c, chain, n);
    var nonce := Nonce(c, key);
    var m := Message(n, nonce, AeadEncrypt(c, NONCE_BYTES, key, nonce, plaintext, combinedAd));
    DeserializeSerialize(m);
    AeadRoundTrip(c, NONCE_BYTES, key, nonce, plaintext, combinedAd);
    DecryptEffect(c, secret, ad, s, FrameOf(c, chain, n, plaintext, combinedAd), callAd);
  }

  /** The delivery theorem. After any run of the sender and any run of the receiver, the frame
      the sender emits next decrypts to its plaintext exactly when its number is not behind the
      receiver's counter at that moment. */
  lemma GenuineFrameDecryptsIff(c: Suite, secret: Bytes, senderAd: Bytes, receiverAd: Bytes,
                                sent: seq<Call>, received: seq<Call>,
                                plaintext: Bytes, sendAd: Bytes, receiveAd: Bytes)
    requires secret != []
    requires Defined(c, Initial(c, secret, senderAd), sent) && Defined(c, Initial(c, secret, receiverAd), received)
    requires senderAd + sendAd == receiverAd + receiveAd
    ensures
      var a, b := Run(c, Initial(c, secret, senderAd), sent), Run(c, Initial(c, secret, receiverAd), received);
      var frame := EncryptStep(c, a, plaintext, sendAd).1;
      && frame.Some?
      && (DecryptStep(c, b, frame.value, receiveAd).1 == Some(plaintext) <==> a.sendCounter >= b.receiveCounter)
      && (a.sendCounter < b.receiveCounter ==> DecryptStep(c, b, frame.value, receiveAd) == (b, None))
  {
    var a, b := Run(c, Initial(c, secret, senderAd), sent), Run(c, Initial(c, secret, receiverAd), received);
    FinalIsDerived(c, secret, senderAd, sent);
    FinalIsDerived(c, secret, receiverAd, received);
    EncryptEmits(c, secret, senderAd, a, plaintext, sendAd);
    GenuineFrameEffect(c, secret, receiverAd, b, a.sendCounter, plaintext, senderAd + sendAd, receiveAd);
  }

  /** The number a frame carries; frames too short for one count as 0. */
  function CounterOf(frame: Bytes): int32 {
    if |frame| < MIN_FRAME_BYTES then 0 else Deserialize(frame).value.counter
  }

  lemma StepMovesForward(c: Suite, s: Session, call: Call)
    requires !Overflows(c, s, call)
    ensures s.receiveCounter <= Step(c, s, call).0.receiveCounter
    ensures call.Decrypt? && Step(c, s, call).1.Some? ==>
              && |call.frame| >= MIN_FRAME_BYTES
              && s.receiveCounter <= CounterOf(call.frame)
              && Step(c, s, call).0.receiveCounter == CounterOf(call.frame) + 1
  {
  }

  /** The receive counter never decreases. */
  lemma ReceiveCounterMonotone(c: Suite, s: Session, calls: seq<Call>, i: nat, j: nat)
    requires Defined(c, s, calls) && i <= j <= |calls|
    ensures StateAt(c, s, calls, i).receiveCounter <= StateAt(c, s, calls, j).receiveCounter
  {
    var rank := (t: Session) => t.receiveCounter as int;
    forall t, call | Safe(c)(t, call)
      ensures rank(t) <= rank(Next(c)(t, call))
    {
      StepMovesForward(c, t, call);
    }
    Runs.Monotone(Next(c), Safe(c), rank, s, calls, i, j);
  }

  /** Call i of the run is a receive that returns a plaintext. */
  predicate AcceptedAt(c: Suite, s: Session, calls: seq<Call>, i: nat) {
    i < |calls| && calls[i].Decrypt? && AnswerAt(c, s, calls, i).Some?
  }

  lemma AcceptedCounter(c: Suite, s: Session, calls: seq<Call>, i: nat)
    requires Defined(c, s, calls)
    ensures AcceptedAt(c, s, calls, i) ==>
              && |calls[i].frame| >= MIN_FRAME_BYTES
              && StateAt(c, s, calls, i).receiveCounter <= CounterOf(calls[i].frame)
              && StateAt(c, s, calls, i + 1).receiveCounter == CounterOf(calls[i].frame) + 1
  {
    if AcceptedAt(c, s, calls, i) {
      assert Safe(c)(StateAt(c, s, calls, i), calls[i]);
      StepMovesForward(c, StateAt(c, s, calls, i), calls[i]);
      Runs.AtNext(Next(c), s, calls, i);
    }
  }

  /** Accepted counters strictly increase over any run, so no frame is accepted twice, whatever
      else was delivered in between and however far rejected frames moved the counter. */
  lemma AcceptedCountersIncrease(c: Suite, s: Session, calls: seq<Call>, i: nat, j: nat)
    requires Defined(c, s, calls) && i < j
    ensures AcceptedAt(c, s, calls, i) && AcceptedAt(c, s, calls, j) ==>
              CounterOf(calls[i].frame) < CounterOf(calls[j].frame) && calls[i].frame != calls[j].frame
  {
    AcceptedCounter(c, s, calls, i);
    AcceptedCounter(c, s, calls, j);
    if AcceptedAt(c, s, calls, j) {
      ReceiveCounterMonotone(c, s, calls, i + 1, j);
    }
  }

  // ---- one conversation, delivered in any order ----

  datatype Outgoing = Outgoing(plaintext: Bytes, ad: Bytes)

  function Sends(messages: seq<Outgoing>): (calls: seq<Call>)
    ensures |calls| == |messages|
  {
    seq(|messages|, i requires 0 <= i < |messages| => Encrypt(messages[i].plaintext, messages[i].ad))
  }

  /** The i-th frame a fresh sender emits. */
  function SentFrame(c: Suite, secret: Bytes, ad: Bytes, messages: seq<Outgoing>, i: nat): Option<Bytes>
    requires i < |messages|
  {
    AnswerAt(c, Initial(c, secret, ad), Sends(messages), i)
  }

  lemma SenderAfter(c: Suite, secret: Bytes, ad: Bytes, messages: seq<Outgoing>, i: nat)
    requires secret != [] && i <= |messages| <= INT_MAX
    ensures Derived(c, secret, ad, StateAt(c, Initial(c, secret, ad), Sends(messages), i))
    ensures StateAt(c, Initial(c, secret, ad), Sends(messages), i).sendCounter == i
  {
    var inv := (k: int, s: Session) => Derived(c, secret, ad, s) && s.sendCounter == k;
    forall k, s | 0 <= k < |messages| && inv(k, s)
      ensures inv(k + 1, Next(c)(s, Sends(messages)[k]))
    {
      EncryptEmits(c, secret, ad, s, messages[k].plaintext, messages[k].ad);
    }
    Runs.IndexedInvariant(Next(c), inv, Initial(c, secret, ad), Sends(messages), i);
  }

  lemma SentFrameIs(c: Suite, secret: Bytes, ad: Bytes, messages: seq<Outgoing>, i: nat)
    requires secret != [] && i < |messages| <= INT_MAX
    ensures
      var chain, m := ChainAt(c, BaseKey(c, secret), i), messages[i];
      SentFrame(c, secret, ad, messages, i) == Some(FrameOf(c, chain, i, m.plaintext, ad + m.ad))
  {
    SenderAfter(c, secret, ad, messages, i);
    var s := StateAt(c, Initial(c, secret, ad), Sends(messages), i);
    EncryptEmits(c, secret, ad, s, messages[i].plaintext, messages[i].ad);
  }

  /** Delivering the n-th frame of a fresh sender in a reachable state of the receiver. */
  lemma SentFrameDelivered(c: Suite, secret: Bytes, senderAd: Bytes, receiverAd: Bytes, s: Session,
                           messages: seq<Outgoing>, n: nat, callAd: Bytes)
    requires Derived(c, secret, receiverAd, s) && secret != [] && n < |messages| <= INT_MAX
    requires senderAd + messages[n].ad == receiverAd + callAd
    ensures SentFrame(c, secret, senderAd, messages, n).Some?
    ensures
      var (s', answer) := Step(c, s, Decrypt(SentFrame(c, secret, senderAd, messages, n).value, callAd));
      && answer == (if n >= s.receiveCounter then Some(messages[n].plaintext) else None)
      && Derived(c, secret, receiverAd, s')
      && s'.receiveCounter == if n >= s.receiveCounter then n + 1 else s.receiveCounter
  {
    SentFrameIs(c, secret, senderAd, messages, n);
    GenuineFrameEffect(c, secret, receiverAd, s, n, messages[n].plaintext, senderAd + messages[n].ad, callAd);
  }

  /** Deliver the frames number picks[0], picks[1], ... to a fresh receiver. */
  function Deliveries(c: Suite, secret: Bytes, senderAd: Bytes, messages: seq<Outgoing>,
                      picks: seq<nat>, ads: seq<Bytes>): (calls: seq<Call>)
    requires |ads| == |picks| && forall j :: 0 <= j < |picks| ==> picks[j] < |messages|
    ensures |calls| == |picks|
  {
    seq(|picks|, j requires 0 <= j < |picks| =>
      var frame := SentFrame(c, secret, senderAd, messages, picks[j]);
      Decrypt(if frame.Some? then frame.value else [], ads[j]))
  }

  predicate SameAd(messages: seq<Outgoing>, picks: seq<nat>, senderAd: Bytes, receiverAd: Bytes, ads: seq<Bytes>) {
    && |ads| == |picks| && (forall j :: 0 <= j < |picks| ==> picks[j] < |messages|)
    && forall j :: 0 <= j < |picks| ==> senderAd + messages[picks[j]].ad == receiverAd + ads[j]
  }

  function HighWater(picks: seq<nat>): nat {
    if picks == [] then 0
    else
      var rest, last := HighWater(picks[..|picks| - 1]), picks[|picks| - 1];
      if last >= rest then last + 1 else rest
  }

  lemma {:induction false} HighWaterBounds(picks: seq<nat>, n: nat)
    ensures n >= HighWater(picks) <==> forall i :: 0 <= i < |picks| ==> picks[i] < n
  {
    if picks != [] {
      var k := |picks| - 1;
      HighWaterBounds(picks[..k], n);
      HighWaterBounds(picks[..k], picks[k]);
      assert forall i :: 0 <= i < k ==> picks[..k][i] == picks[i];
    }
  }

  lemma NewestIff(picks: seq<nat>, j: nat)
    requires j < |picks|
    ensures picks[j] >= HighWater(picks[..j]) <==> forall i :: 0 <= i < j ==> picks[i] < picks[j]
  {
    HighWaterBounds(picks[..j], picks[j]);
    assert forall i :: 0 <= i < j ==> picks[..j][i] == picks[i];
  }

  lemma HighWaterNext(picks: seq<nat>, j: nat)
    requires j < |picks|
    ensures HighWater(picks[..j + 1])
         == if picks[j] >= HighWater(picks[..j]) then picks[j] + 1 else HighWater(picks[..j])
  {
    assert picks[..j + 1][..j] == picks[..j];
  }

  lemma DeliveryStep(c: Suite, secret: Bytes, senderAd: Bytes, receiverAd: Bytes, s: Session,
                     messages: seq<Outgoing>, picks: seq<nat>, ads: seq<Bytes>, j: nat)
    requires secret != [] && |messages| <= INT_MAX && j < |picks|
    requires SameAd(messages, picks, senderAd, receiverAd, ads)
    requires Derived(c, secret, receiverAd, s) && s.receiveCounter == HighWater(picks[..j])
    ensures
      var (s', answer) := Step(c, s, Deliveries(c, secret, senderAd, messages, picks, ads)[j]);
      && Derived(c, secret, receiverAd, s') && s'.receiveCounter == HighWater(picks[..j + 1])
      && answer == (if picks[j] >= HighWater(picks[..j]) then Some(messages[picks[j]].plaintext) else None)
  {
    SentFrameDelivered(c, secret, senderAd, receiverAd, s, messages, picks[j], ads[j]);
    HighWaterNext(picks, j);
  }

  lemma ReceiverAfterDeliveries(c: Suite, secret: Bytes, senderAd: Bytes, receiverAd: Bytes,
                                messages: seq<Outgoing>, picks: seq<nat>, ads: seq<Bytes>, j: nat)
    requires secret != [] && |messages| <= INT_MAX && j <= |picks|
    requires SameAd(messages, picks, senderAd, receiverAd, ads)
    ensures
      var s := StateAt(c, Initial(c, secret, receiverAd), Deliveries(c, secret, senderAd, messages, picks, ads), j);
      Derived(c, secret, receiverAd, s) && s.receiveCounter == HighWater(picks[..j])
  {
    var calls := Deliveries(c, secret, senderAd, messages, picks, ads);
    var inv := (k: int, s: Session) =>
      0 <= k <= |picks| && Derived(c, secret, receiverAd, s) && s.receiveCounter == HighWater(picks[..k]);
    forall k, s | 0 <= k < |calls| && inv(k, s)
      ensures inv(k + 1, Next(c)(s, calls[k]))
    {
      DeliveryStep(c, secret, senderAd, receiverAd, s, messages, picks, ads, k);
    }
    Runs.IndexedInvariant(Next(c), inv, Initial(c, secret, receiverAd), calls, j);
  }

  /** Frames lost, repeated and reordered in any way: delivery j decrypts exactly when its frame
      is newer than every frame delivered before it. */
  lemma DeliveryDecryptsIffNewest(c: Suite, secret: Bytes, senderAd: Bytes, receiverAd: Bytes,
                                  messages: seq<Outgoing>, picks: seq<nat>, ads: seq<Bytes>, j: nat)
    requires secret != [] && |messages| <= INT_MAX && j < |picks|
    requires SameAd(messages, picks, senderAd, receiverAd, ads)
    ensures AnswerAt(c, Initial(c, secret, receiverAd), Deliveries(c, secret, senderAd, messages, picks, ads), j)
         == if forall i :: 0 <= i < j ==> picks[i] < picks[j] then Some(messages[picks[j]].plaintext) else None
  {
    var calls := Deliveries(c, secret, senderAd, messages, picks, ads);
    var s := StateAt(c, Initial(c, secret, receiverAd), calls, j);
    ReceiverAfterDeliveries(c, secret, senderAd, receiverAd, messages, picks, ads, j);
    DeliveryStep(c, secret, senderAd, receiverAd, s, messages, picks, ads, j);
    NewestIff(picks, j);
  }

  /** Every strictly increasing selection of the sent frames decrypts in full, whatever the gaps. */
  lemma IncreasingSelectionDecrypts(c: Suite, secret: Bytes, senderAd: Bytes, receiverAd: Bytes,
                                    messages: seq<Outgoing>, picks: seq<nat>, ads: seq<Bytes>)
    requires secret != [] && |messages| <= INT_MAX
    requires SameAd(messages, picks, senderAd, receiverAd, ads)
    requires forall i, j :: 0 <= i < j < |picks| ==> picks[i] < picks[j]
    ensures
      var calls := Deliveries(c, secret, senderAd, messages, picks, ads);
      forall j :: 0 <= j < |picks| ==>
        AnswerAt(c, Initial(c, secret, receiverAd), calls, j) == Some(messages[picks[j]].plaintext)
  {
    forall j | 0 <= j < |picks|
      ensures AnswerAt(c, Initial(c, secret, receiverAd), Deliveries(c, secret, senderAd, messages, picks, ads), j)
           == Some(messages[picks[j]].plaintext)
    {
      DeliveryDecryptsIffNewest(c, secret, senderAd, receiverAd, messages, picks, ads, j);
    }
  }

  // ---- when runs do not overflow ----

  lemma SendCounterBound(c: Suite, secret: Bytes, ad: Bytes, calls: seq<Call>, i: nat)
    requires i <= |calls| <= INT_MAX
    ensures 0 <= StateAt(c, Initial(c, secret, ad), calls, i).sendCounter <= i
  {
    var inv := (k: int, s: Session) => 0 <= s.sendCounter <= k <= |calls|;
    Runs.IndexedInvariant(Next(c), inv, Initial(c, secret, ad), calls, i);
  }

  /** A run of fewer than 2^31 calls in which no delivered frame carries the number 2^31 - 1
      overflows nothing. */
  lemma BoundedRunIsDefined(c: Suite, secret: Bytes, ad: Bytes, calls: seq<Call>)
    requires |calls| <= INT_MAX
    requires forall i :: 0 <= i < |calls| && calls[i].Decrypt? ==> CounterOf(calls[i].frame) != INT_MAX
    ensures Defined(c, Initial(c, secret, ad), calls)
  {
    forall i | 0 <= i < |calls|
      ensures !Overflows(c, StateAt(c, Initial(c, secret, ad), calls, i), calls[i])
    {
      SendCounterBound(c, secret, ad, calls, i);
    }
  }
}
