/** Runs of everything that touches the inbox: pushes, polls, selections, and the changes of the
    open conversation in between. What does the table hold, and does a poll cursor that moves on
    past rows that could not be written lose any? */
module Polling {
  import opened ByteStrings
  import opened MessageTable
  import opened Transport
  import opened Envelopes
  import opened Merging
  import Runs

  /** What stays fixed: the lookups, the server's log of pending envelopes and the place each
      cursor stands for. */
  datatype Setting = Setting(u: Utf8, w: World, log: seq<Envelope>, position: Text -> nat)

  /** The inbox, every write tried so far, and the furthest place of the log a poll has reached. */
  datatype Ledger = Ledger(view: View, tried: seq<Attempt>, reach: nat)

  /** A run begins where the cursor stands. */
  function Start(k: Setting, v: View): Ledger {
    Ledger(v, [], k.position(v.cursor))
  }

  function EndOf(k: Setting, v: View, e: Event): nat {
    if e.Poll? && e.batch.Some? then k.position(v.cursor) + |e.batch.value.envelopes| else 0
  }

  function Recorded(k: Setting, l: Ledger, e: Event): Ledger {
    var end := EndOf(k, l.view, e);
    Ledger(Step(k.u, k.w, l.view, e), l.tried + Tried(k.w, l.view, e), if l.reach < end then end else l.reach)
  }

  function Next(k: Setting): (Ledger, Event) -> Ledger {
    (l, e) => Recorded(k, l, e)
  }

  function After(k: Setting, v: View, es: seq<Event>): Ledger {
    Runs.Run(Next(k), Start(k, v), es)
  }

  // ----- The table is what was written.

  lemma {:induction false} WrittenConcat(a: seq<Attempt>, b: seq<Attempt>)
    ensures Written(a + b) == Written(a) + Written(b)
  {
    if b == [] {
      assert a + b == a;
    } else {
      var n := |b| - 1;
      WrittenConcat(a, b[..n]);
      assert (a + b)[..|a| + n] == a + b[..n];
    }
  }

  lemma BuiltConcat(u: Utf8, w: World, a: seq<Delivery>, b: seq<Delivery>)
    ensures Built(u, w, a + b) == Built(u, w, a) + Built(u, w, b)
  {
    forall i | 0 <= i < |a| + |b|
      ensures Built(u, w, a + b)[i] == (Built(u, w, a) + Built(u, w, b))[i]
    {
      assert (a + b)[i] == if i < |a| then a[i] else b[i - |a|];
    }
  }

  lemma DeliverConcat(u: Utf8, w: World, t: Table, a: seq<Delivery>, b: seq<Delivery>)
    ensures Deliver(u, w, t, a + b) == Deliver(u, w, Deliver(u, w, t, a), b)
  {
    BuiltConcat(u, w, a, b);
    UpsertAllConcat(t, Built(u, w, a), Built(u, w, b));
  }

  /** After any run of pushes, polls, selections and changes of the open conversation, whatever
      answers come and whatever writes fail, the table is the starting table with exactly the
      written deliveries applied in order. */
  lemma {:induction false} TableIsWhatWasWritten(k: Setting, v: View, es: seq<Event>)
    ensures
      var l := After(k, v, es);
      l.view.messages == Deliver(k.u, k.w, v.messages, Written(l.tried))
  {
    if es == [] {
      assert Built(k.u, k.w, []) == [];
    } else {
      var rest, e := es[..|es| - 1], es[|es| - 1];
      TableIsWhatWasWritten(k, v, rest);
      var l := After(k, v, rest);
      WrittenConcat(l.tried, Tried(k.w, l.view, e));
      DeliverConcat(k.u, k.w, v.messages, Written(l.tried), Written(Tried(k.w, l.view, e)));
    }
  }

  function Deliveries(tried: seq<Attempt>): (ds: seq<Delivery>)
    ensures |ds| == |tried|
  {
    seq(|tried|, i requires 0 <= i < |tried| => tried[i].delivery)
  }

  /** The server sends one content per id. */
  predicate OneContent(tried: seq<Attempt>) {
    IdDeterminesContent(Deliveries(tried))
  }

  predicate WasTried(tried: seq<Attempt>, env: Envelope) {
    exists j :: 0 <= j < |tried| && tried[j].delivery.env == env
  }

  predicate WasWritten(tried: seq<Attempt>, env: Envelope) {
    exists j :: 0 <= j < |tried| && tried[j].delivery.env == env && tried[j].written
  }

  lemma {:induction false} WrittenMembers(tried: seq<Attempt>)
    ensures forall d :: d in Written(tried) <==> Attempt(d, true) in tried
  {
    if tried != [] {
      WrittenMembers(tried[..|tried| - 1]);
      assert tried == tried[..|tried| - 1] + [tried[|tried| - 1]];
    }
  }

  lemma WrittenOneContent(tried: seq<Attempt>)
    requires OneContent(tried)
    ensures IdDeterminesContent(Written(tried))
    ensures forall env :: env in EnvelopesOf(Written(tried)) <==> WasWritten(tried, env)
  {
    WrittenMembers(tried);
    var ds := Deliveries(tried);
    forall i | 0 <= i < |Written(tried)|
      ensures exists j :: 0 <= j < |ds| && ds[j] == Written(tried)[i]
    {
      assert Written(tried)[i] in Written(tried);
      var j :| 0 <= j < |tried| && tried[j] == Attempt(Written(tried)[i], true);
      assert ds[j] == Written(tried)[i];
    }
    forall env | WasWritten(tried, env)
      ensures env in EnvelopesOf(Written(tried))
    {
      var j :| 0 <= j < |tried| && tried[j].delivery.env == env && tried[j].written;
      assert tried[j] == Attempt(tried[j].delivery, true);
      assert tried[j].delivery in Written(tried);
    }
  }

  // ----- What the polls have covered.

  /** The row of an envelope is there with the content it calls for. */
  predicate Holds(k: Setting, t: Table, now: Table, env: Envelope) {
    && env.envelopeId in now
    && now[env.envelopeId] == Merged(t, MessageOf(k.u, k.w, IsSelfDm(k.w, env.conversationId), env))
  }

  /** The last delivery of the envelope put it on the side the server's answer calls for. */
  ghost predicate SideRight(w: World, ds: seq<Delivery>, env: Envelope) {
    forall j :: IsLatest(ds, j) && ds[j].env == env ==>
      IsOutgoing(w, ds[j].selfDm, env) == IsOutgoing(w, IsSelfDm(w, env.conversationId), env)
  }

  /** One envelope after any run: its row is there and right exactly when one of its writes
      succeeded and the last that did put it on the right side, or none did and the starting
      table had that row already. */
  lemma HoldsIff(k: Setting, v: View, es: seq<Event>, env: Envelope)
    requires OneContent(After(k, v, es).tried) && WasTried(After(k, v, es).tried, env)
    ensures
      var l := After(k, v, es);
      Holds(k, v.messages, l.view.messages, env) <==>
        if WasWritten(l.tried, env) then SideRight(k.w, Written(l.tried), env)
        else Holds(k, v.messages, v.messages, env)
  {
    var l := After(k, v, es);
    var t, ds := v.messages, Written(l.tried);
    TableIsWhatWasWritten(k, v, es);
    WrittenOneContent(l.tried);
    if WasWritten(l.tried, env) {
      WrittenHoldsIff(k, t, ds, env);
    } else {
      forall i | 0 <= i < |ds|
        ensures ds[i].env.envelopeId != env.envelopeId
      {
        assert ds[i] in ds && ds[i].env in EnvelopesOf(ds);
        SameIdSameEnvelope(l.tried, env, ds[i].env);
      }
      OtherIds(k.u, k.w, t, ds, env.envelopeId);
    }
  }

  lemma WrittenHoldsIff(k: Setting, t: Table, ds: seq<Delivery>, env: Envelope)
    requires IdDeterminesContent(ds) && env in EnvelopesOf(ds)
    ensures Holds(k, t, Deliver(k.u, k.w, t, ds), env) <==> SideRight(k.w, ds, env)
  {
    var right := IsSelfDm(k.w, env.conversationId);
    var d :| d in ds && d.env == env;
    var i :| 0 <= i < |ds| && ds[i] == d;
    var j := LatestExists(ds, i);
    RowOfLatest(k.u, k.w, t, ds, j);
    SameRowIff(k.u, k.w, t, ds[j].selfDm, right, env);
    assert forall l :: IsLatest(ds, l) && ds[l].env == env ==> l == j;
  }

  lemma SameIdSameEnvelope(tried: seq<Attempt>, a: Envelope, b: Envelope)
    requires OneContent(tried)
    requires WasTried(tried, a) && WasWritten(tried, b)
    ensures a.envelopeId == b.envelopeId ==> a == b
  {
    var ds := Deliveries(tried);
    var i :| 0 <= i < |tried| && tried[i].delivery.env == a;
    var j :| 0 <= j < |tried| && tried[j].delivery.env == b && tried[j].written;
    assert ds[i].env == a && ds[j].env == b;
  }

  /** A successful answer to a poll is the piece of the log that starts at the cursor. Its next
      cursor stands for the place where the piece ends, or is empty, which starts over. */
  predicate Honest(k: Setting, l: Ledger, e: Event) {
    e.Poll? && e.batch.Some? ==>
      var from, end := k.position(l.view.cursor), EndOf(k, l.view, e);
      && end <= |k.log| && e.batch.value.envelopes == k.log[from..end]
      && (e.batch.value.nextCursor == [] || k.position(e.batch.value.nextCursor) == end)
  }

  function HonestFor(k: Setting): (Ledger, Event) -> bool {
    (l, e) => Honest(k, l, e)
  }

  /** No poll leaves a gap: everything from where the run began to the furthest place reached was
      tried. */
  predicate NoGap(k: Setting, from: nat, l: Ledger) {
    && k.position(l.view.cursor) <= l.reach <= |k.log| && from <= l.reach
    && forall i :: from <= i < l.reach ==> WasTried(l.tried, k.log[i])
  }

  lemma TriedLater(a: seq<Attempt>, b: seq<Attempt>, env: Envelope)
    ensures WasTried(a + b, env) <==> WasTried(a, env) || WasTried(b, env)
  {
    if j :| 0 <= j < |a| && a[j].delivery.env == env {
      assert (a + b)[j] == a[j];
    }
    if j :| 0 <= j < |b| && b[j].delivery.env == env {
      assert (a + b)[|a| + j] == b[j];
    }
  }

  lemma StepLeavesNoGap(k: Setting, from: nat, l: Ledger, e: Event)
    requires k.position([]) == 0
    requires NoGap(k, from, l) && Honest(k, l, e)
    ensures NoGap(k, from, Recorded(k, l, e))
  {
    var now, more := Recorded(k, l, e), Tried(k.w, l.view, e);
    forall i | from <= i < now.reach
      ensures WasTried(now.tried, k.log[i])
    {
      TriedLater(l.tried, more, k.log[i]);
      if i >= l.reach {
        assert more[i - k.position(l.view.cursor)].delivery.env == k.log[i];
      }
    }
  }

  lemma PollsLeaveNoGap(k: Setting, v: View, es: seq<Event>)
    requires k.position([]) == 0 && k.position(v.cursor) <= |k.log|
    requires Runs.Guarded(Next(k), HonestFor(k), Start(k, v), es)
    ensures NoGap(k, k.position(v.cursor), After(k, v, es))
  {
    var inv := (l: Ledger) => NoGap(k, k.position(v.cursor), l);
    forall l, e | inv(l) && HonestFor(k)(l, e)
      ensures inv(Next(k)(l, e))
    {
      StepLeavesNoGap(k, k.position(v.cursor), l, e);
    }
    Runs.Invariant(Next(k), HonestFor(k), inv, Start(k, v), es, |es|);
    Runs.AtEnds(Next(k), Start(k, v), es);
  }

  /** The table covers a log when every envelope in it has its row. */
  predicate Covers(k: Setting, t: Table, now: Table, log: seq<Envelope>) {
    forall i :: 0 <= i < |log| ==> Holds(k, t, now, log[i])
  }

  /** Over any run in which the polls are answered honestly, whatever else happens in between and
      whatever flags are remembered: from where the cursor stood at first to where the polls have
      come, the table covers the log exactly when each envelope was written at some delivery, the
      last time on its right side, or was never written but had its row from the start. */
  lemma PollsCoverLogIff(k: Setting, v: View, es: seq<Event>)
    requires k.position([]) == 0 && k.position(v.cursor) <= |k.log|
    requires Runs.Guarded(Next(k), HonestFor(k), Start(k, v), es)
    requires OneContent(After(k, v, es).tried)
    ensures
      var from, l := k.position(v.cursor), After(k, v, es);
      && k.position(l.view.cursor) <= l.reach <= |k.log| && from <= l.reach
      && (Covers(k, v.messages, l.view.messages, k.log[from..l.reach]) <==>
            forall i :: from <= i < l.reach ==>
              if WasWritten(l.tried, k.log[i]) then SideRight(k.w, Written(l.tried), k.log[i])
              else Holds(k, v.messages, v.messages, k.log[i]))
  {
    PollsLeaveNoGap(k, v, es);
    var from, l := k.position(v.cursor), After(k, v, es);
    forall i | from <= i < l.reach
      ensures Holds(k, v.messages, l.view.messages, k.log[i]) <==>
                if WasWritten(l.tried, k.log[i]) then SideRight(k.w, Written(l.tried), k.log[i])
                else Holds(k, v.messages, v.messages, k.log[i])
    {
      HoldsIff(k, v, es, k.log[i]);
    }
    assert forall i :: from <= i < l.reach ==> k.log[i] == k.log[from..l.reach][i - from];
  }

  // ----- Polls alone, with a database that works.

  predicate AllWritten(tried: seq<Attempt>) {
    forall j :: 0 <= j < |tried| ==> tried[j].written
  }

  predicate HonestPoll(k: Setting, l: Ledger, e: Event) {
    e.Poll? && Honest(k, l, e)
  }

  function HonestPollFor(k: Setting): (Ledger, Event) -> bool {
    (l, e) => HonestPoll(k, l, e)
  }

  predicate NothingElse(k: Setting, l: Ledger) {
    && NoGap(k, 0, l)
    && forall j :: 0 <= j < |l.tried| ==> l.tried[j].delivery.env in k.log[..l.reach]
  }

  lemma PolledFromLog(k: Setting, l: Ledger, e: Event, j: nat)
    requires e.Poll? && Honest(k, l, e) && j < |Tried(k.w, l.view, e)|
    ensures k.position(l.view.cursor) + j < EndOf(k, l.view, e) <= |k.log|
    ensures Tried(k.w, l.view, e)[j].delivery.env == k.log[k.position(l.view.cursor) + j]
  {
  }

  lemma LogPrefixes(log: seq<Envelope>, a: nat, b: nat, env: Envelope)
    requires a <= b <= |log| && env in log[..a]
    ensures env in log[..b]
  {
    assert log[..a] <= log[..b];
  }

  lemma PollAddsNothingElse(k: Setting, l: Ledger, e: Event)
    requires k.position([]) == 0
    requires NothingElse(k, l) && HonestPoll(k, l, e)
    ensures NothingElse(k, Recorded(k, l, e))
  {
    StepLeavesNoGap(k, 0, l, e);
    var now := Recorded(k, l, e);
    forall j | 0 <= j < |now.tried|
      ensures now.tried[j].delivery.env in k.log[..now.reach]
    {
      if j < |l.tried| {
        LogPrefixes(k.log, l.reach, now.reach, l.tried[j].delivery.env);
      } else {
        PolledFromLog(k, l, e, j - |l.tried|);
        var at := k.position(l.view.cursor) + j - |l.tried|;
        assert k.log[..now.reach][at] == k.log[at];
      }
    }
  }

  /** Repeated, overlapping and restarted polls with working writes come to one clean pass over
      the log as far as any of them has come exactly when the last poll of each envelope put it on
      the right side. */
  lemma PollsEqualOnePassIff(k: Setting, v: View, es: seq<Event>)
    requires k.position([]) == 0 && k.position(v.cursor) == 0
    requires Runs.Guarded(Next(k), HonestPollFor(k), Start(k, v), es)
    requires OneContent(After(k, v, es).tried) && AllWritten(After(k, v, es).tried)
    ensures
      var l := After(k, v, es);
      && k.position(l.view.cursor) <= l.reach <= |k.log|
      && (l.view.messages == Deliver(k.u, k.w, v.messages, Pass(k.w, k.log[..l.reach])) <==>
            forall i :: 0 <= i < l.reach ==> SideRight(k.w, Written(l.tried), k.log[i]))
  {
    var inv := (l: Ledger) => NothingElse(k, l);
    forall l, e | inv(l) && HonestPollFor(k)(l, e)
      ensures inv(Next(k)(l, e))
    {
      PollAddsNothingElse(k, l, e);
    }
    Runs.Invariant(Next(k), HonestPollFor(k), inv, Start(k, v), es, |es|);
    Runs.AtEnds(Next(k), Start(k, v), es);
    TableIsWhatWasWritten(k, v, es);
    var l := After(k, v, es);
    AllOfLog(k, l);
    MergeConvergesIff(k.u, k.w, v.messages, Written(l.tried), Pass(k.w, k.log[..l.reach]));
    SidesAgreeWithPass(k.w, Written(l.tried), k.log[..l.reach]);
    assert forall i :: 0 <= i < l.reach ==> k.log[..l.reach][i] == k.log[i];
  }

  lemma SidesAgreeWithPass(w: World, ds: seq<Delivery>, envs: seq<Envelope>)
    requires IdDeterminesContent(Pass(w, envs))
    ensures SidesAgree(w, ds, Pass(w, envs)) <==> forall i :: 0 <= i < |envs| ==> SideRight(w, ds, envs[i])
  {
    var pass := Pass(w, envs);
    if SidesAgree(w, ds, pass) {
      forall i | 0 <= i < |envs|
        ensures SideRight(w, ds, envs[i])
      {
        var j := LatestExists(pass, i);
        assert pass[j].env == pass[i].env == envs[i];
      }
    }
    if forall i :: 0 <= i < |envs| ==> SideRight(w, ds, envs[i]) {
      forall i, j | IsLatest(ds, i) && IsLatest(pass, j) && ds[i].env == pass[j].env
        ensures IsOutgoing(w, ds[i].selfDm, ds[i].env) == IsOutgoing(w, pass[j].selfDm, pass[j].env)
      {
        assert SideRight(w, ds, envs[j]);
      }
    }
  }

  lemma AllOfLog(k: Setting, l: Ledger)
    requires NothingElse(k, l) && OneContent(l.tried) && AllWritten(l.tried)
    ensures
      var pass := Pass(k.w, k.log[..l.reach]);
      && IdDeterminesContent(Written(l.tried)) && IdDeterminesContent(pass)
      && EnvelopesOf(Written(l.tried)) == EnvelopesOf(pass)
  {
    var seen := k.log[..l.reach];
    var pass := Pass(k.w, seen);
    WrittenOneContent(l.tried);
    forall i | 0 <= i < |seen|
      ensures WasWritten(l.tried, seen[i])
    {
      assert WasTried(l.tried, k.log[i]);
    }
    forall env
      ensures env in EnvelopesOf(pass) <==> env in seen
    {
      if env in seen {
        var i :| 0 <= i < |seen| && seen[i] == env;
        assert pass[i] in pass && pass[i].env == env;
      }
    }
    forall i, j | 0 <= i < |pass| && 0 <= j < |pass|
      ensures pass[i].env.envelopeId == pass[j].env.envelopeId ==> pass[i].env == pass[j].env
    {
      SameIdSameEnvelope(l.tried, seen[i], seen[j]);
    }
  }

  // ----- A write that fails.

  lemma DeliverKeys(u: Utf8, w: World, t: Table, tried: seq<Attempt>, id: Text)
    ensures id in Deliver(u, w, t, Written(tried)) <==>
              id in t || exists a :: a in tried && a.delivery.env.envelopeId == id && a.written
  {
    var ds := Written(tried);
    UpsertAllKeys(t, Built(u, w, ds), id);
    WrittenMembers(tried);
    if i :| 0 <= i < |ds| && ds[i].env.envelopeId == id {
      assert ds[i] in ds;
      assert Attempt(ds[i], true) in tried;
    }
    if a :| a in tried && a.delivery.env.envelopeId == id && a.written {
      assert a == Attempt(a.delivery, true);
      var i :| 0 <= i < |ds| && ds[i] == a.delivery;
      assert Built(u, w, ds)[i].messageId == id;
    }
  }

  /** Rows appear by successful writes and in no other way, whatever the server sends. */
  lemma PresentIff(k: Setting, v: View, es: seq<Event>, id: Text)
    ensures
      var l := After(k, v, es);
      id in l.view.messages <==>
        id in v.messages || exists a :: a in l.tried && a.delivery.env.envelopeId == id && a.written
  {
    TableIsWhatWasWritten(k, v, es);
    DeliverKeys(k.u, k.w, v.messages, After(k, v, es).tried, id);
  }

  predicate DistinctIds(log: seq<Envelope>) {
    forall i, j :: 0 <= i < j < |log| ==> log[i].envelopeId != log[j].envelopeId
  }

  predicate Brings(w: World, v: View, e: Event, id: Text) {
    exists a :: a in Tried(w, v, e) && a.delivery.env.envelopeId == id
  }

  /** The polls are answered honestly and none of them starts over; pushes and histories may
      bring anything but this id. */
  predicate MovesOn(k: Setting, id: Text, l: Ledger, e: Event) {
    if e.Poll? then Honest(k, l, e) && (e.batch.Some? ==> e.batch.value.nextCursor != [])
    else !Brings(k.w, l.view, e, id)
  }

  function MovesOnFor(k: Setting, id: Text): (Ledger, Event) -> bool {
    (l, e) => MovesOn(k, id, l, e)
  }

  /** The cursor is past this place of the log, and the table lacks the envelope's row. */
  predicate PassedOver(k: Setting, at: nat, v: View)
    requires at < |k.log|
  {
    at < k.position(v.cursor) && k.log[at].envelopeId !in v.messages
  }

  lemma StepLacks(u: Utf8, w: World, v: View, e: Event, id: Text)
    requires id !in v.messages
    requires forall a :: a in Tried(w, v, e) && a.delivery.env.envelopeId == id ==> !a.written
    ensures id !in Step(u, w, v, e).messages
  {
    DeliverKeys(u, w, v.messages, Tried(w, v, e), id);
  }

  lemma StaysPassedOver(k: Setting, at: nat, l: Ledger, e: Event)
    requires at < |k.log| && DistinctIds(k.log)
    requires PassedOver(k, at, l.view) && MovesOn(k, k.log[at].envelopeId, l, e)
    ensures PassedOver(k, at, Recorded(k, l, e).view)
  {
    var tried := Tried(k.w, l.view, e);
    forall a | a in tried
      ensures a.delivery.env.envelopeId != k.log[at].envelopeId
    {
      if e.Poll? {
        var j :| 0 <= j < |tried| && tried[j] == a;
        assert tried[j].delivery.env == k.log[k.position(l.view.cursor) + j];
      }
    }
    StepLacks(k.u, k.w, l.view, e, k.log[at].envelopeId);
  }

  /** It stays so over any run that moves on. */
  lemma PassedOverForGood(k: Setting, at: nat, v: View, es: seq<Event>, i: nat)
    requires at < |k.log| && DistinctIds(k.log) && i <= |es|
    requires PassedOver(k, at, v)
    requires Runs.Guarded(Next(k), MovesOnFor(k, k.log[at].envelopeId), Start(k, v), es)
    ensures PassedOver(k, at, Runs.At(Next(k), Start(k, v), es, i).view)
  {
    var guard, inv := MovesOnFor(k, k.log[at].envelopeId), (l: Ledger) => PassedOver(k, at, l.view);
    forall l, e | inv(l) && guard(l, e)
      ensures inv(Next(k)(l, e))
    {
      StaysPassedOver(k, at, l, e);
    }
    Runs.Invariant(Next(k), guard, inv, Start(k, v), es, i);
  }

  /** An honest poll whose write of one envelope fails loses it: the cursor has moved on, and no
      further polls bring the envelope back unless one of them starts over. */
  lemma FailedWriteLosesEnvelope(k: Setting, v: View, poll: Event, at: nat, es: seq<Event>, i: nat)
    requires DistinctIds(k.log) && i <= |es|
    requires poll.Poll? && poll.batch.Some? && poll.batch.value.nextCursor != [] && Honest(k, Start(k, v), poll)
    requires k.position(v.cursor) <= at < EndOf(k, v, poll)
    requires !poll.writesOk(at - k.position(v.cursor)) && k.log[at].envelopeId !in v.messages
    requires Runs.Guarded(Next(k), MovesOnFor(k, k.log[at].envelopeId), Start(k, Step(k.u, k.w, v, poll)), es)
    ensures k.log[at].envelopeId !in Runs.At(Next(k), Start(k, Step(k.u, k.w, v, poll)), es, i).view.messages
  {
    var tried := Tried(k.w, v, poll);
    forall a | a in tried && a.delivery.env.envelopeId == k.log[at].envelopeId
      ensures !a.written
    {
      var j :| 0 <= j < |tried| && tried[j] == a;
      assert tried[j].delivery.env == k.log[k.position(v.cursor) + j];
    }
    StepLacks(k.u, k.w, v, poll, k.log[at].envelopeId);
    PassedOverForGood(k, at, Step(k.u, k.w, v, poll), es, i);
  }

  // ----- Another user.

  /** A logout leaves the cursor where it is, so the next user's polls begin at the place it stands
      for in that user's log. What lies before is passed over: it stays absent as long as no poll
      starts over and nothing else brings it. */
  lemma NextUserSkips(k: Setting, k': Setting, v: View, es: seq<Event>, at: nat, es': seq<Event>, i: nat)
    requires at < |k'.log| && DistinctIds(k'.log) && i <= |es'|
    requires
      var out := After(k, v, es + [Open([])]).view;
      && at < k'.position(After(k, v, es).view.cursor)
      && k'.log[at].envelopeId !in After(k, v, es).view.messages
      && Runs.Guarded(Next(k'), MovesOnFor(k', k'.log[at].envelopeId), Start(k', out), es')
    ensures
      var out := After(k, v, es + [Open([])]).view;
      k'.log[at].envelopeId !in Runs.At(Next(k'), Start(k', out), es', i).view.messages
  {
    Runs.RunExtend(Next(k), Start(k, v), es, Open([]));
    var before := After(k, v, es).view;
    assert Built(k.u, k.w, []) == [];
    PassedOverForGood(k', at, before.(selectedId := []), es', i);
  }

  // ----- The remembered flag.

  /** The conversation open after a run that began with this one open. */
  function Opened(id: Text, es: seq<Event>): Text {
    if es == [] then id
    else
      match es[|es| - 1]
      case Select(last, _, _) => last
      case Open(last) => last
      case _ => Opened(id, es[..|es| - 1])
  }

  /** The last conversation that was selected while its summary could be fetched. */
  function Fetched(w: World, es: seq<Event>): Option<Text> {
    if es == [] then None
    else
      var rest, last := es[..|es| - 1], es[|es| - 1];
      if last.Select? && w.conversation(last.conversationId).Some? then Some(last.conversationId) else Fetched(w, rest)
  }

  /** The kind the run remembers: that conversation's, or the initial one. */
  predicate KindRemembered(w: World, initially: bool, es: seq<Event>) {
    var last := Fetched(w, es);
    if last.Some? then IsSelfDm(w, last.value) else initially
  }

  predicate FlagRight(w: World, v: View) {
    v.selectedIsSelfDm == IsSelfDm(w, v.selectedId)
  }

  /** After any run the remembered flag is that of the last conversation whose summary was fetched.
      So it is right exactly when that conversation and the open one are of the same kind. */
  lemma {:induction false} FlagIsLastFetched(k: Setting, v: View, es: seq<Event>)
    ensures
      var now := After(k, v, es).view;
      && now.selectedId == Opened(v.selectedId, es)
      && now.selectedIsSelfDm == KindRemembered(k.w, v.selectedIsSelfDm, es)
      && (FlagRight(k.w, now) <==>
            KindRemembered(k.w, v.selectedIsSelfDm, es) == IsSelfDm(k.w, Opened(v.selectedId, es)))
  {
    if es != [] {
      FlagIsLastFetched(k, v, es[..|es| - 1]);
    }
  }

  /** Pushed envelopes get right flags exactly when the flag is right or none is of the open
      conversation. */
  predicate Remembered(w: World, v: View, es: seq<Event>, envs: seq<Envelope>) {
    || KindRemembered(w, v.selectedIsSelfDm, es) == IsSelfDm(w, Opened(v.selectedId, es))
    || forall i :: 0 <= i < |envs| ==> envs[i].conversationId != Opened(v.selectedId, es)
  }

  /** What the event after these brings has its right flags. */
  predicate FlaggedRight(w: World, v: View, es: seq<Event>, e: Event) {
    match e
    case Push(env, _) => Remembered(w, v, es, [env])
    case Poll(batch, _) => batch.Some? ==> Remembered(w, v, es, batch.value.envelopes)
    case Select(id, history, _) =>
      history.Some? ==>
        forall i :: 0 <= i < |history.value.envelopes| ==>
          IsSelfDm(w, history.value.envelopes[i].conversationId) == IsSelfDm(w, id)
    case Open(_) => true
  }

  lemma PushedFlags(w: World, selectedId: Text, flag: bool, envs: seq<Envelope>)
    ensures FlagsAgree(w, Pushed(w, selectedId, flag, envs)) <==>
              flag == IsSelfDm(w, selectedId) || forall i :: 0 <= i < |envs| ==> envs[i].conversationId != selectedId
  {
    var ds := Pushed(w, selectedId, flag, envs);
    if i :| 0 <= i < |envs| && envs[i].conversationId == selectedId {
      assert ds[i].selfDm == flag;
    }
  }

  lemma LoadedFlags(w: World, flag: bool, envs: seq<Envelope>)
    ensures FlagsAgree(w, Loaded(flag, envs)) <==>
              forall i :: 0 <= i < |envs| ==> IsSelfDm(w, envs[i].conversationId) == flag
  {
    var ds := Loaded(flag, envs);
    assert forall i :: 0 <= i < |envs| ==> ds[i].selfDm == flag && ds[i].env == envs[i];
  }

  lemma EventFlags(k: Setting, v: View, es: seq<Event>, e: Event)
    ensures FlagsAgree(k.w, Deliveries(Tried(k.w, After(k, v, es).view, e))) <==> FlaggedRight(k.w, v, es, e)
  {
    FlagIsLastFetched(k, v, es);
    var now, tried := After(k, v, es).view, Tried(k.w, After(k, v, es).view, e);
    match e {
      case Push(env, _) =>
        assert Deliveries(tried) == Pushed(k.w, now.selectedId, now.selectedIsSelfDm, [env]);
        PushedFlags(k.w, now.selectedId, now.selectedIsSelfDm, [env]);
      case Poll(batch, _) =>
        if batch.Some? {
          assert Deliveries(tried) == Pushed(k.w, now.selectedId, now.selectedIsSelfDm, batch.value.envelopes);
          PushedFlags(k.w, now.selectedId, now.selectedIsSelfDm, batch.value.envelopes);
        }
      case Select(id, history, _) =>
        if history.Some? {
          assert Deliveries(tried) == Loaded(IsSelfDm(k.w, id), history.value.envelopes);
          LoadedFlags(k.w, IsSelfDm(k.w, id), history.value.envelopes);
        }
      case Open(_) =>
    }
  }

  lemma TriedFlags(w: World, a: seq<Attempt>, b: seq<Attempt>)
    ensures FlagsAgree(w, Deliveries(a + b)) <==> FlagsAgree(w, Deliveries(a)) && FlagsAgree(w, Deliveries(b))
  {
    var all := Deliveries(a + b);
    assert forall i :: 0 <= i < |a| ==> all[i] == Deliveries(a)[i];
    assert forall i :: 0 <= i < |b| ==> all[|a| + i] == Deliveries(b)[i];
    assert forall i :: |a| <= i < |all| ==> all[i] == Deliveries(b)[i - |a|];
  }

  lemma FlagsSoFar(k: Setting, v: View, es: seq<Event>, e: Event)
    ensures FlagsAgree(k.w, Deliveries(After(k, v, es + [e]).tried)) <==>
              FlagsAgree(k.w, Deliveries(After(k, v, es).tried)) && FlaggedRight(k.w, v, es, e)
  {
    Runs.RunExtend(Next(k), Start(k, v), es, e);
    EventFlags(k, v, es, e);
    TriedFlags(k.w, After(k, v, es).tried, Tried(k.w, After(k, v, es).view, e));
  }

  predicate AllFlaggedRight(w: World, v: View, es: seq<Event>) {
    forall i :: 0 <= i < |es| ==> FlaggedRight(w, v, es[..i], es[i])
  }

  lemma FlaggedRightSoFar(w: World, v: View, es: seq<Event>, e: Event)
    ensures AllFlaggedRight(w, v, es + [e]) <==> AllFlaggedRight(w, v, es) && FlaggedRight(w, v, es, e)
  {
    var all := es + [e];
    assert forall i :: 0 <= i < |es| ==> all[..i] == es[..i] && all[i] == es[i];
    assert all[..|es|] == es && all[|es|] == e;
  }

  /** Every delivery of a run has its right flag exactly when at every push and poll the last
      conversation fetched is of the open one's kind or nothing comes for the open one, and
      histories hold envelopes of their own conversation's kind. */
  lemma {:induction false} FlagsStayRightIff(k: Setting, v: View, es: seq<Event>)
    ensures FlagsAgree(k.w, Deliveries(After(k, v, es).tried)) <==> AllFlaggedRight(k.w, v, es)
  {
    if es != [] {
      var rest, e := es[..|es| - 1], es[|es| - 1];
      assert es == rest + [e];
      FlagsStayRightIff(k, v, rest);
      FlagsSoFar(k, v, rest, e);
      FlaggedRightSoFar(k.w, v, rest, e);
    }
  }
}
