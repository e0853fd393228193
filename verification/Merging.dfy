/** What a set of deliveries leaves in the message table, whichever routes brought them. */
module Merging {
  import opened ByteStrings
  import opened MessageTable
  import opened Transport
  import opened Envelopes

  predicate IdDeterminesContent(ds: seq<Delivery>) {
    forall i, j :: 0 <= i < |ds| && 0 <= j < |ds| && ds[i].env.envelopeId == ds[j].env.envelopeId ==>
      ds[i].env == ds[j].env
  }

  ghost function EnvelopesOf(ds: seq<Delivery>): set<Envelope> {
    set d | d in ds :: d.env
  }

  /** The last delivery of an envelope. */
  predicate IsLatest(ds: seq<Delivery>, j: int) {
    0 <= j < |ds| && forall k :: j < k < |ds| ==> ds[k].env.envelopeId != ds[j].env.envelopeId
  }

  lemma {:induction false} LatestExists(ds: seq<Delivery>, i: nat) returns (j: nat)
    requires i < |ds|
    ensures IsLatest(ds, j) && ds[j].env.envelopeId == ds[i].env.envelopeId
    decreases |ds| - i
  {
    if k :| i < k < |ds| && ds[k].env.envelopeId == ds[i].env.envelopeId {
      j := LatestExists(ds, k);
    } else {
      j := i;
    }
  }

  /** The two rules for the outgoing side give different answers for this envelope. */
  predicate FlagMatters(me: Me, env: Envelope) {
    (me.deviceId != [] && env.senderDeviceId == me.deviceId) != (me.userId != [] && env.senderUserId == me.userId)
  }

  /** What is left of the flag's effect once a row has been written again. */
  lemma MergedAgain(u: Utf8, w: World, t: Table, first: bool, last: bool, env: Envelope)
    ensures Updated(Merged(t, MessageOf(u, w, first, env)), MessageOf(u, w, last, env))
         == Merged(t, MessageOf(u, w, last, env))
  {
  }

  lemma SameRowIff(u: Utf8, w: World, t: Table, a: bool, b: bool, env: Envelope)
    ensures Merged(t, MessageOf(u, w, a, env)) == Merged(t, MessageOf(u, w, b, env))
       <==> IsOutgoing(w, a, env) == IsOutgoing(w, b, env)
  {
  }

  /** The row of an envelope is the one its last delivery calls for. */
  lemma RowOfLatest(u: Utf8, w: World, t: Table, ds: seq<Delivery>, j: nat)
    requires IdDeterminesContent(ds) && IsLatest(ds, j)
    ensures
      var id, now := ds[j].env.envelopeId, Deliver(u, w, t, ds);
      id in now && now[id] == Merged(t, MessageOf(u, w, ds[j].selfDm, ds[j].env))
  {
    var ms := Built(u, w, ds);
    var i := FirstExists(ms, j);
    RowOutcome(t, ms, i, j);
    MergedAgain(u, w, t, ds[i].selfDm, ds[j].selfDm, ds[j].env);
  }

  lemma OtherIds(u: Utf8, w: World, t: Table, ds: seq<Delivery>, id: Text)
    requires forall i :: 0 <= i < |ds| ==> ds[i].env.envelopeId != id
    ensures id in Deliver(u, w, t, ds) <==> id in t
    ensures id in t ==> Deliver(u, w, t, ds)[id] == t[id]
  {
    UpsertAllKeys(t, Built(u, w, ds), id);
    if id in t {
      OtherRowsKept(t, Built(u, w, ds), id);
    }
  }

  /** The last delivery of every envelope puts it on the same side in both sequences. */
  ghost predicate SidesAgree(w: World, ds: seq<Delivery>, ds': seq<Delivery>) {
    forall i, j :: IsLatest(ds, i) && IsLatest(ds', j) && ds[i].env == ds'[j].env ==>
      IsOutgoing(w, ds[i].selfDm, ds[i].env) == IsOutgoing(w, ds'[j].selfDm, ds'[j].env)
  }

  lemma SameEnvelopes(ds: seq<Delivery>, ds': seq<Delivery>, i: nat) returns (j: nat, j': nat)
    requires IdDeterminesContent(ds) && IdDeterminesContent(ds') && EnvelopesOf(ds) == EnvelopesOf(ds')
    requires i < |ds|
    ensures IsLatest(ds, j) && IsLatest(ds', j') && ds[j].env == ds'[j'].env == ds[i].env
  {
    assert ds[i] in ds;
    assert ds[i].env in EnvelopesOf(ds');
    var d :| d in ds' && d.env == ds[i].env;
    var i' :| 0 <= i' < |ds'| && ds'[i'] == d;
    j := LatestExists(ds, i);
    j' := LatestExists(ds', i');
  }

  lemma RowsAgree(u: Utf8, w: World, t: Table, ds: seq<Delivery>, ds': seq<Delivery>, id: Text)
    requires IdDeterminesContent(ds) && IdDeterminesContent(ds') && EnvelopesOf(ds) == EnvelopesOf(ds')
    requires SidesAgree(w, ds, ds')
    ensures
      var a, b := Deliver(u, w, t, ds), Deliver(u, w, t, ds');
      (id in a <==> id in b) && (id in a ==> a[id] == b[id])
  {
    if i :| 0 <= i < |ds| && ds[i].env.envelopeId == id {
      var j, j' := SameEnvelopes(ds, ds', i);
      RowOfLatest(u, w, t, ds, j);
      RowOfLatest(u, w, t, ds', j');
      SameRowIff(u, w, t, ds[j].selfDm, ds'[j'].selfDm, ds[j].env);
    } else {
      if i :| 0 <= i < |ds'| && ds'[i].env.envelopeId == id {
        var j, j' := SameEnvelopes(ds', ds, i);
        assert false;
      }
      OtherIds(u, w, t, ds, id);
      OtherIds(u, w, t, ds', id);
    }
  }

  /** Envelope merging: two delivery sequences over any routes and with any flags that bring the
      same set of envelopes, in any order and any number of times, leave the same table exactly
      when each envelope's last delivery puts it on the same side in both. */
  lemma MergeConvergesIff(u: Utf8, w: World, t: Table, ds: seq<Delivery>, ds': seq<Delivery>)
    requires IdDeterminesContent(ds) && IdDeterminesContent(ds') && EnvelopesOf(ds) == EnvelopesOf(ds')
    ensures Deliver(u, w, t, ds) == Deliver(u, w, t, ds') <==> SidesAgree(w, ds, ds')
  {
    var a, b := Deliver(u, w, t, ds), Deliver(u, w, t, ds');
    if SidesAgree(w, ds, ds') {
      forall id
        ensures (id in a <==> id in b) && (id in a ==> a[id] == b[id])
      {
        RowsAgree(u, w, t, ds, ds', id);
      }
      assert a == b;
    }
    if a == b {
      forall i, j | IsLatest(ds, i) && IsLatest(ds', j) && ds[i].env == ds'[j].env
        ensures IsOutgoing(w, ds[i].selfDm, ds[i].env) == IsOutgoing(w, ds'[j].selfDm, ds'[j].env)
      {
        RowOfLatest(u, w, t, ds, i);
        RowOfLatest(u, w, t, ds', j);
        SameRowIff(u, w, t, ds[i].selfDm, ds'[j].selfDm, ds[i].env);
      }
    }
  }

  // ----- The flag each route gives.

  /** Every route gave an envelope the flag the server's answer calls for. */
  predicate FlagsAgree(w: World, ds: seq<Delivery>) {
    forall i :: 0 <= i < |ds| ==> ds[i].selfDm == IsSelfDm(w, ds[i].env.conversationId)
  }

  /** In particular order, repetition and routes do not matter when all flags are right. */
  lemma MergeConverges(u: Utf8, w: World, t: Table, ds: seq<Delivery>, ds': seq<Delivery>)
    requires FlagsAgree(w, ds) && FlagsAgree(w, ds')
    requires IdDeterminesContent(ds) && IdDeterminesContent(ds') && EnvelopesOf(ds) == EnvelopesOf(ds')
    ensures Deliver(u, w, t, ds) == Deliver(u, w, t, ds')
  {
    MergeConvergesIff(u, w, t, ds, ds');
  }

  /** One pass over envelopes with the flags the server's answers call for. */
  function Pass(w: World, envs: seq<Envelope>): (ds: seq<Delivery>)
    ensures |ds| == |envs|
    ensures FlagsAgree(w, ds)
  {
    seq(|envs|, i requires 0 <= i < |envs| => Delivery(envs[i], IsSelfDm(w, envs[i].conversationId)))
  }

  /** A conversation's history is loaded with the right flags. */
  lemma HistoryIsPass(w: World, id: Text, envs: seq<Envelope>)
    requires forall env :: env in envs ==> env.conversationId == id
    ensures Loaded(IsSelfDm(w, id), envs) == Pass(w, envs)
  {
  }

  lemma SameEnvelopesAnyFlags(ds: seq<Delivery>, ds': seq<Delivery>)
    requires |ds| == |ds'| && forall i :: 0 <= i < |ds| ==> ds[i].env == ds'[i].env
    ensures EnvelopesOf(ds) == EnvelopesOf(ds')
    ensures IdDeterminesContent(ds) <==> IdDeterminesContent(ds')
    ensures forall j :: IsLatest(ds, j) <==> IsLatest(ds', j)
  {
    forall env
      ensures env in EnvelopesOf(ds) <==> env in EnvelopesOf(ds')
    {
      if d :| d in ds && d.env == env {
        var i :| 0 <= i < |ds| && ds[i] == d;
        assert ds'[i] in ds';
      }
      if d :| d in ds' && d.env == env {
        var i :| 0 <= i < |ds'| && ds'[i] == d;
        assert ds[i] in ds;
      }
    }
  }

  /** Pushing or polling envelopes leaves the table that loading them does exactly when the
      remembered flag is the open conversation's, or none of them is an envelope of the open
      conversation on whose side the two rules differ. */
  lemma PushAgreesIff(u: Utf8, w: World, t: Table, selectedId: Text, selectedIsSelfDm: bool, envs: seq<Envelope>)
    requires IdDeterminesContent(Pass(w, envs))
    ensures Deliver(u, w, t, Pushed(w, selectedId, selectedIsSelfDm, envs)) == Deliver(u, w, t, Pass(w, envs)) <==>
              || selectedIsSelfDm == IsSelfDm(w, selectedId)
              || forall i :: 0 <= i < |envs| && envs[i].conversationId == selectedId ==> !FlagMatters(w.me, envs[i])
  {
    var ds, ds' := Pushed(w, selectedId, selectedIsSelfDm, envs), Pass(w, envs);
    SameEnvelopesAnyFlags(ds, ds');
    MergeConvergesIff(u, w, t, ds, ds');
    if selectedIsSelfDm != IsSelfDm(w, selectedId) {
      if i :| 0 <= i < |envs| && envs[i].conversationId == selectedId && FlagMatters(w.me, envs[i]) {
        var j := LatestExists(ds, i);
        assert IsLatest(ds', j) && ds[j].env == envs[i];
      } else {
        forall i, j | IsLatest(ds, i) && IsLatest(ds', j) && ds[i].env == ds'[j].env
          ensures IsOutgoing(w, ds[i].selfDm, ds[i].env) == IsOutgoing(w, ds'[j].selfDm, ds'[j].env)
        {
          assert ds[i].env == envs[i];
        }
      }
    } else {
      assert ds == ds';
    }
  }

  /** The handlers themselves get there: after a self-conversation was selected and another one
      opened without its summary, an envelope of the latter gives different tables when it is
      pushed and when it comes with the history, exactly when the two rules differ on it. */
  lemma StaleFlagDivergesIff(u: Utf8, w: World, v: View, self: Text, other: Text, env: Envelope, cursor: Text)
    requires IsSelfDm(w, self) && !IsSelfDm(w, other) && env.conversationId == other
    ensures
      var works := (_: nat) => true;
      var stale := Step(u, w, Step(u, w, v, Select(self, None, works)), Open(other));
      Step(u, w, stale, Push(env, true)).messages
      != Step(u, w, stale, Select(other, Some(Batch([env], cursor)), works)).messages
      <==> FlagMatters(w.me, env)
  {
    var works := (_: nat) => true;
    var stale := Step(u, w, Step(u, w, v, Select(self, None, works)), Open(other));
    var pushed, loaded := Pushed(w, other, true, [env]), Loaded(false, [env]);
    AllWork(pushed, works);
    AllWork(loaded, works);
    HistoryIsPass(w, other, [env]);
    PushAgreesIff(u, w, stale.messages, other, true, [env]);
    assert FlagMatters(w.me, env) <==> FlagMatters(w.me, [env][0]);
  }

  lemma {:induction false} AllWork(ds: seq<Delivery>, writesOk: nat -> bool)
    requires forall i: nat :: i < |ds| ==> writesOk(i)
    ensures Written(Attempts(ds, writesOk)) == ds
  {
    if ds != [] {
      var n := |ds| - 1;
      AllWork(ds[..n], writesOk);
      assert Attempts(ds, writesOk)[..n] == Attempts(ds[..n], writesOk);
    }
  }
}
