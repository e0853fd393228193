/** Sending a message: to the server if it answers, otherwise into the outbox, which is a Queued
    row in the messages table and a retry job with the same ciphertext. */
module Outbox {
  import opened ByteStrings
  import opened MessageTable
  import opened Transport
  import E = Envelopes
  import Jobs
  import Runs

  const SEND_MESSAGE: Text := Ascii("send_message")
  const MILLIS_PER_SECOND := 1000
  const RETRY_DELAY_MS := 1000

  /** What is to be sent; the plaintext is cached when it is given. */
  datatype Request = Request(conversationId: Text, deviceId: Text, ciphertext: Text, plaintext: Option<Text>)

  /** The server's verdict and, when it answered with data, its clock in seconds. */
  datatype Sent = Sent(ok: bool, serverTimestamp: Option<int>)

  /** A new envelope id, the clock before and after storing, and which writes work. */
  datatype World = World(envelopeId: Text, now: int, later: int, storeOk: bool, queueOk: bool)

  datatype State = State(messages: MessageTable.Table, jobs: Jobs.Table)

  predicate Sendable(r: Request) {
    r.plaintext != Some([]) && r.conversationId != [] && r.deviceId != [] && r.ciphertext != []
  }

  function MessageFor(r: Request, sent: Sent, w: World): Message {
    Message(w.envelopeId, r.conversationId, Ascii("me"), r.deviceId, 0, w.now,
            if sent.serverTimestamp.Some? then sent.serverTimestamp.value * MILLIS_PER_SECOND else 0,
            TextContent, r.ciphertext, if r.plaintext.Some? then r.plaintext.value else [],
            if sent.ok then SentToServer else Queued, true, None, 0)
  }

  function SendStep(s: State, r: Request, sent: Sent, w: World): (State, bool) {
    if !Sendable(r) then (s, false)
    else
      var messages := if w.storeOk then Upsert(s.messages, MessageFor(r, sent, w)) else s.messages;
      if sent.ok then (s.(messages := messages), w.storeOk)
      else (State(messages,
                  if w.queueOk then Jobs.Enqueue(s.jobs, SEND_MESSAGE, r.ciphertext, w.later + RETRY_DELAY_MS)
                  else s.jobs),
            w.storeOk && w.queueOk)
  }

  class JobsRepository {
    var table: Jobs.Table

    constructor ()
      ensures table == Jobs.Table([], 1)
    {
      table := Jobs.Table([], 1);
    }

    method EnqueueJob(kind: Text, payload: Bytes, nextAttemptMs: int, writeOk: bool) returns (ok: bool)
      modifies this
      ensures ok == writeOk
      ensures table == if ok then Jobs.Enqueue(old(table), kind, payload, nextAttemptMs) else old(table)
    {
      if writeOk {
        table := Jobs.Enqueue(table, kind, payload, nextAttemptMs);
      }
      ok := writeOk;
    }

    method MarkAttempt(jobId: int, success: bool, nextAttemptMs: int, writeOk: bool) returns (ok: bool)
      modifies this
      ensures ok == writeOk
      ensures table == if ok then Jobs.MarkAttempt(old(table), jobId, success, nextAttemptMs) else old(table)
    {
      ok := writeOk;
      if !writeOk {
        return;
      }
      var rows := [];
      for i := 0 to |table.rows|
        invariant rows == Jobs.MarkAttempt(table, jobId, success, nextAttemptMs).rows[..i]
        invariant table == old(table)
      {
        var job := table.rows[i];
        rows := rows + [if job.jobId == jobId then Jobs.Marked(job, success, nextAttemptMs) else job];
      }
      assert rows == Jobs.MarkAttempt(table, jobId, success, nextAttemptMs).rows;
      table := table.(rows := rows);
    }
  }

  class MessagesRepository {
    var table: MessageTable.Table

    constructor (table: MessageTable.Table)
      ensures this.table == table
    {
      this.table := table;
    }

    method UpsertMessage(m: Message, writeOk: bool) returns (ok: bool)
      modifies this
      ensures ok == writeOk && table == if ok then Upsert(old(table), m) else old(table)
    {
      if writeOk {
        table := Upsert(table, m);
      }
      ok := writeOk;
    }
  }

  class MessageSendService {
    const messages: MessagesRepository
    const jobs: JobsRepository

    constructor (messages: MessagesRepository, jobs: JobsRepository)
      ensures this.messages == messages && this.jobs == jobs
    {
      this.messages, this.jobs := messages, jobs;
    }

    ghost function Abstract(): State
      reads messages, jobs
    {
      State(messages.table, jobs.table)
    }

    /** `sendCiphertext` without a plaintext, `sendMessage` with one. */
    method Send(r: Request, sent: Sent, w: World) returns (ok: bool)
      modifies messages, jobs
      ensures (Abstract(), ok) == SendStep(old(Abstract()), r, sent, w)
    {
      if r.plaintext.Some? && r.plaintext.value == [] {
        return false;
      }
      if r.conversationId == [] || r.deviceId == [] || r.ciphertext == [] {
        return false;
      }
      var message := MessageFor(r, sent, w);
      if sent.ok {
        ok := messages.UpsertMessage(message, w.storeOk);
        return;
      }
      var stored := messages.UpsertMessage(message, w.storeOk);
      var queued := jobs.EnqueueJob(SEND_MESSAGE, r.ciphertext, w.later + RETRY_DELAY_MS, w.queueOk);
      ok := stored && queued;
    }
  }

  /** A message is refused without effect for an empty plaintext, conversation, device or
      ciphertext; otherwise the answer says whether every write worked. */
  lemma SendAnswersIff(s: State, r: Request, sent: Sent, w: World)
    ensures
      var refused := r.plaintext == Some([]) || r.conversationId == [] || r.deviceId == [] || r.ciphertext == [];
      && (refused ==> SendStep(s, r, sent, w) == (s, false))
      && (!refused ==> (SendStep(s, r, sent, w).1 <==> w.storeOk && (sent.ok || w.queueOk)))
  {
  }

  /** The row of a new message: outgoing, with its plaintext cached when it was given, sent or
      queued as the server said, and stamped by both clocks. */
  lemma SentRow(s: State, r: Request, sent: Sent, w: World)
    requires Sendable(r) && w.storeOk && w.envelopeId !in s.messages
    ensures
      var t := SendStep(s, r, sent, w).0.messages;
      && t.Keys == s.messages.Keys + {w.envelopeId}
      && (forall id :: id in s.messages ==> t[id] == s.messages[id])
      && var row := t[w.envelopeId];
         && row.conversationId == r.conversationId && row.senderDeviceId == r.deviceId
         && row.senderUserId == Ascii("me") && row.isOutgoing
         && row.ciphertextBlob == r.ciphertext
         && row.plaintextCache == (if r.plaintext.Some? then r.plaintext.value else [])
         && row.deliveryState == (if sent.ok then SentToServer else Queued)
         && row.clientCreatedAtMs == w.now
         && row.serverReceivedAtMs
            == (if sent.serverTimestamp.Some? then sent.serverTimestamp.value * 1000 else 0)
         && row.contentKind == TextContent && row.readState == Unread
  {
  }

  /** An unsent message leaves a job that retries its ciphertext a second later; a sent one none. */
  lemma RetryJob(s: State, r: Request, sent: Sent, w: World, nowMs: int)
    requires Sendable(r) && w.queueOk
    ensures
      var jobs := SendStep(s, r, sent, w).0.jobs;
      if sent.ok then jobs == s.jobs
      else
        && |jobs.rows| == |s.jobs.rows| + 1 && jobs.rows[..|s.jobs.rows|] == s.jobs.rows
        && var job := jobs.rows[|s.jobs.rows|];
           && job.kind == Ascii("send_message") && job.payload == r.ciphertext
           && (Jobs.Due(job, nowMs) <==> w.later + 1000 <= nowMs)
  {
  }

  // ---- conservation ----

  /** Messages are sent, jobs are marked, and envelopes arrive over any route. */
  datatype Event =
    | Send(r: Request, sent: Sent, w: World)
    | Mark(jobId: int, success: bool, nextAttemptMs: int)
    | Receive(d: E.Delivery, written: bool)

  /** The signed-in user with the server's lookups, as the inbox has them. */
  datatype Client = Client(u: Utf8, w: E.World)

  /** The state, the ids put into the outbox so far, in order, and those of them that have come
      back as envelopes. */
  datatype Ledger = Ledger(state: State, outbox: seq<Text>, echoed: set<Text>)

  function Step(c: Client, l: Ledger, e: Event): Ledger {
    match e
    case Send(r, sent, w) =>
      l.(state := SendStep(l.state, r, sent, w).0,
         outbox := if Sendable(r) && !sent.ok then l.outbox + [w.envelopeId] else l.outbox)
    case Mark(jobId, success, next) =>
      l.(state := l.state.(jobs := Jobs.MarkAttempt(l.state.jobs, jobId, success, next)))
    case Receive(d, written) =>
      if !written then l
      else
        l.(state := l.state.(messages := E.Deliver(c.u, c.w, l.state.messages, [d])),
           echoed := if d.env.envelopeId in l.outbox then l.echoed + {d.env.envelopeId} else l.echoed)
  }

  function Next(c: Client): (Ledger, Event) -> Ledger {
    (l, e) => Step(c, l, e)
  }

  /** New ids are fresh and the writes of sends work. */
  predicate Careful(l: Ledger, e: Event) {
    e.Send? ==> e.w.storeOk && e.w.queueOk && e.w.envelopeId !in l.state.messages
  }

  /** The Queued rows are the outbox ids that have not come back, each once; there is a job for
      every outbox id, and job k carries the ciphertext of the k-th of them unless that has come
      back. */
  ghost predicate Matched(l: Ledger) {
    var t, jobs := l.state.messages, l.state.jobs.rows;
    && (forall id :: (id in t && t[id].deliveryState == Queued) <==> (id in l.outbox && id !in l.echoed))
    && (forall id :: id in l.echoed ==> id in l.outbox)
    && (forall i, j :: 0 <= i < j < |l.outbox| ==> l.outbox[i] != l.outbox[j])
    && |jobs| == |l.outbox|
    && forall k :: 0 <= k < |jobs| ==>
         && l.outbox[k] in t && jobs[k].kind == SEND_MESSAGE
         && (l.outbox[k] !in l.echoed ==> jobs[k].payload == t[l.outbox[k]].ciphertextBlob)
  }

  lemma SendMatched(c: Client, l: Ledger, e: Event)
    requires e.Send? && Matched(l) && Careful(l, e)
    ensures Matched(Step(c, l, e))
  {
    if Sendable(e.r) {
      var l' := Step(c, l, e);
      forall id
        ensures id in l'.outbox <==> id in l.outbox || (!e.sent.ok && id == e.w.envelopeId)
      {
      }
      assert forall k :: 0 <= k < |l.outbox| ==> l.outbox[k] in l.outbox;
    }
  }

  lemma ReceiveMatched(c: Client, l: Ledger, e: Event)
    requires e.Receive? && Matched(l)
    ensures Matched(Step(c, l, e))
  {
    if e.written {
      E.DeliverOne(c.u, c.w, l.state.messages, e.d);
    }
  }

  function QueuedIds(t: MessageTable.Table): set<Text> {
    set id | id in t && t[id].deliveryState == Queued
  }

  lemma {:induction false} DistinctCount(ids: seq<Text>, s: set<Text>)
    requires (forall id :: id in s <==> id in ids) && forall i, j :: 0 <= i < j < |ids| ==> ids[i] != ids[j]
    ensures |s| == |ids|
  {
    if ids != [] {
      var init, last := ids[..|ids| - 1], ids[|ids| - 1];
      assert forall id :: id in ids <==> id in init || id == last;
      assert last in s && last !in init;
      DistinctCount(init, s - {last});
    }
  }

  /** Outbox conservation: at every moment of any careful run of sends, job updates and deliveries,
      the Queued rows and the send jobs match one to one, ciphertext by ciphertext, but for the
      jobs of outbox ids that have come back as envelopes. */
  lemma OutboxConserved(c: Client, s: State, events: seq<Event>, i: nat)
    requires i <= |events| && s.jobs.rows == [] && QueuedIds(s.messages) == {}
    requires Runs.Guarded(Next(c), Careful, Ledger(s, [], {}), events)
    ensures
      var l := Runs.At(Next(c), Ledger(s, [], {}), events, i);
      Matched(l) && |l.state.jobs.rows| == |QueuedIds(l.state.messages)| + |l.echoed|
  {
    forall id | id in s.messages
      ensures s.messages[id].deliveryState != Queued
    {
      assert id !in QueuedIds(s.messages);
    }
    forall l, e | Matched(l) && Careful(l, e)
      ensures Matched(Next(c)(l, e))
    {
      match e
      case Send(_, _, _) => SendMatched(c, l, e);
      case Mark(_, _, _) =>
      case Receive(_, _) => ReceiveMatched(c, l, e);
    }
    Runs.Invariant(Next(c), Careful, Matched, Ledger(s, [], {}), events, i);
    var l := Runs.At(Next(c), Ledger(s, [], {}), events, i);
    DistinctCount(l.outbox, QueuedIds(l.state.messages) + l.echoed);
  }

  /** The match breaks exactly at the delivery of an envelope that is in the outbox: its row is
      Queued no longer, while its job stays. */
  lemma EchoUnqueuesIff(c: Client, l: Ledger, d: E.Delivery)
    requires Matched(l)
    ensures
      var l' := Step(c, l, Receive(d, true));
      && l'.state.jobs == l.state.jobs
      && (QueuedIds(l'.state.messages) == QueuedIds(l.state.messages) <==>
            d.env.envelopeId !in l.outbox || d.env.envelopeId in l.echoed)
      && QueuedIds(l'.state.messages) == QueuedIds(l.state.messages) - {d.env.envelopeId}
  {
    E.DeliverOne(c.u, c.w, l.state.messages, d);
    var l', id := Step(c, l, Receive(d, true)), d.env.envelopeId;
    assert id in QueuedIds(l.state.messages) <==> id in l.outbox && id !in l.echoed;
  }
}
