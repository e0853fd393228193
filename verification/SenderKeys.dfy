/** Sender-key epochs of group conversations: rotated locally, imported in any order. */
module SenderKeys {
  import opened ByteStrings
  import opened Primitives
  import Runs

  datatype EpochState = EpochState(currentEpoch: int32, keys: map<int32, Bytes>)

  type Conversations = map<Text, EpochState>

  const FRESH := EpochState(0, map[])

  function Of(cs: Conversations, id: Text): EpochState {
    if id in cs then cs[id] else FRESH
  }

  function Rotate(s: EpochState, key: Bytes): EpochState {
    var epoch := Increment(s.currentEpoch);
    EpochState(epoch, s.keys[epoch := key])
  }

  predicate Importable(epoch: int32, key: Bytes) {
    epoch > 0 && |key| == KEY_BYTES
  }

  function Import(s: EpochState, epoch: int32, key: Bytes): EpochState {
    EpochState(if s.currentEpoch < epoch then epoch else s.currentEpoch, s.keys[epoch := key])
  }

  datatype Event =
    | Rotated(id: Text, newKey: Bytes)
    | Imported(id: Text, epoch: int32, key: Bytes)

  function Step(cs: Conversations, e: Event): Conversations {
    match e
    case Rotated(id, key) => cs[id := Rotate(Of(cs, id), key)]
    case Imported(id, epoch, key) => if Importable(epoch, key) then cs[id := Import(Of(cs, id), epoch, key)] else cs
  }

  function Next(): (Conversations, Event) -> Conversations {
    (cs, e) => Step(cs, e)
  }

  class SenderKeyManager {
    var conversations: Conversations

    constructor ()
      ensures conversations == map[]
    {
      conversations := map[];
    }

    function KeyForEpoch(id: Text, epoch: int32): (key: Option<Bytes>)
      reads this
      ensures key == if epoch in Of(conversations, id).keys then Some(Of(conversations, id).keys[epoch]) else None
    {
      if id !in conversations then None
      else if epoch !in conversations[id].keys then None
      else Some(conversations[id].keys[epoch])
    }

    /** randomKey is what the random source returns. */
    method RotateEpoch(id: Text, randomKey: Bytes) returns (key: Bytes)
      modifies this
      ensures key == randomKey && conversations == Step(old(conversations), Rotated(id, randomKey))
    {
      var state := Of(conversations, id);
      var epoch := Increment(state.currentEpoch);
      conversations := conversations[id := EpochState(epoch, state.keys[epoch := randomKey])];
      key := randomKey;
    }

    method ImportEpochKey(id: Text, epoch: int32, key: Bytes) returns (ok: bool)
      modifies this
      ensures ok == Importable(epoch, key) && conversations == Step(old(conversations), Imported(id, epoch, key))
    {
      if epoch <= 0 || |key| != KEY_BYTES {
        return false;
      }
      var state := Of(conversations, id);
      var current := if state.currentEpoch < epoch then epoch else state.currentEpoch;
      conversations := conversations[id := EpochState(current, state.keys[epoch := key])];
      ok := true;
    }
  }

  /** All stored epochs lie in 1..currentEpoch, and the current epoch has a key when positive. */
  predicate InRange(s: EpochState) {
    && 0 <= s.currentEpoch
    && (forall epoch :: epoch in s.keys ==> 1 <= epoch <= s.currentEpoch)
    && (s.currentEpoch > 0 ==> s.currentEpoch in s.keys)
  }

  predicate AllInRange(cs: Conversations) {
    forall id :: id in cs ==> InRange(cs[id])
  }

  /** No rotation starts from the largest epoch. */
  predicate HasRoom(cs: Conversations, e: Event) {
    e.Rotated? ==> Of(cs, e.id).currentEpoch < INT_MAX
  }

  /** In every state of every run that leaves room, every conversation's epochs are in range. */
  lemma EpochsInRange(events: seq<Event>, i: nat)
    requires i <= |events| && Runs.Guarded(Next(), HasRoom, map[], events)
    ensures AllInRange(Runs.At(Next(), map[], events, i))
  {
    Runs.Invariant(Next(), HasRoom, AllInRange, map[], events, i);
  }

  /** A rotation moves on by one and keeps the drawn key there; other epochs and conversations keep
      theirs. */
  lemma RotationOutcome(cs: Conversations, id: Text, key: Bytes)
    requires Of(cs, id).currentEpoch < INT_MAX
    ensures
      var was, now := Of(cs, id), Of(Step(cs, Rotated(id, key)), id);
      && now.currentEpoch == was.currentEpoch + 1
      && now.currentEpoch in now.keys && now.keys[now.currentEpoch] == key
      && forall epoch :: epoch != now.currentEpoch ==>
           (epoch in now.keys <==> epoch in was.keys) && (epoch in was.keys ==> now.keys[epoch] == was.keys[epoch])
    ensures forall other :: other != id ==> Of(Step(cs, Rotated(id, key)), other) == Of(cs, other)
  {
  }

  /** An import of a positive epoch with a 32-byte key keeps that key there and the larger of the
      two epochs as the current one; anything else is refused without effect. */
  lemma ImportOutcome(cs: Conversations, id: Text, epoch: int32, key: Bytes)
    ensures (epoch <= 0 || |key| != 32) ==> Step(cs, Imported(id, epoch, key)) == cs
    ensures epoch > 0 && |key| == 32 ==>
              var was, now := Of(cs, id), Of(Step(cs, Imported(id, epoch, key)), id);
              && now.currentEpoch == (if epoch > was.currentEpoch then epoch else was.currentEpoch)
              && epoch in now.keys && now.keys[epoch] == key
              && forall e :: e != epoch ==>
                   (e in now.keys <==> e in was.keys) && (e in was.keys ==> now.keys[e] == was.keys[e])
    ensures forall other :: other != id ==> Of(Step(cs, Imported(id, epoch, key)), other) == Of(cs, other)
  {
  }

  /** A rotation uses an epoch above every stored one exactly when there is room: otherwise the
      epoch wraps to a negative one, below every stored epoch. */
  lemma RotationIsFreshIff(s: EpochState, key: Bytes)
    requires InRange(s)
    ensures
      var s' := Rotate(s, key);
      && s'.currentEpoch !in s.keys
      && (forall epoch :: epoch in s.keys ==> epoch in s'.keys && s'.keys[epoch] == s.keys[epoch])
      && (s.currentEpoch < INT_MAX <==> forall epoch :: epoch in s.keys ==> epoch < s'.currentEpoch)
      && (s.currentEpoch < INT_MAX <==> InRange(s'))
  {
    if s.currentEpoch == INT_MAX {
      assert INT_MAX in s.keys && Rotate(s, key).currentEpoch == INT_MIN;
    }
  }

  /** Imports of distinct epochs commute, and never lower the current epoch; imports of one
      epoch keep the later key. */
  lemma ImportsCommute(s: EpochState, e1: int32, k1: Bytes, e2: int32, k2: Bytes)
    ensures s.currentEpoch <= Import(s, e1, k1).currentEpoch
    ensures Import(Import(s, e1, k1), e2, k2) == Import(Import(s, e2, k2), e1, k1) <==> e1 != e2 || k1 == k2
  {
    var a, b := Import(Import(s, e1, k1), e2, k2), Import(Import(s, e2, k2), e1, k1);
    if e1 != e2 {
      assert a.keys == b.keys;
    } else {
      assert a.keys[e1] == k2 && b.keys[e1] == k1;
    }
  }

  /** A conversation ends a run in the state its own events alone would give it. */
  lemma ConversationsIndependent(cs: Conversations, events: seq<Event>, id: Text)
    ensures Of(Runs.Run(Next(), cs, events), id)
         == Of(Runs.Run(Next(), cs, Runs.Filter((e: Event) => e.id == id, events)), id)
  {
    Runs.FilterKeeps(Next(), (e: Event) => e.id == id, (t: Conversations) => Of(t, id), cs, events);
  }
}
