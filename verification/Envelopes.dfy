/** Envelopes reach the message table by three routes: pushed over the socket, polled, and
    loaded with a conversation's history. */
module Envelopes {
  import opened ByteStrings
  import opened MessageTable
  import opened Transport

  datatype Envelope = Envelope(
    envelopeId: Text,
    conversationId: Text,
    senderUserId: Text,
    senderDeviceId: Text,
    ciphertext: Text,
    serverTimestamp: int)

  datatype Me = Me(deviceId: Text, userId: Text, username: Text)

  datatype Summary = Summary(kind: int, peerUserId: Option<Text>)

  /** The signed-in user, with empty fields when there is none, and the server's answers to the
      two lookups: a conversation by id and a username by user id. */
  datatype World = World(me: Me, conversation: Text -> Option<Summary>, username: Text -> Option<Text>)

  const MILLIS_PER_SECOND := 1000
  const ID_SUFFIX_LENGTH := 6

  predicate SummaryIsSelfDm(me: Me, summary: Summary) {
    summary.kind == 0 && summary.peerUserId == Some(me.userId)
  }

  /** Whether a conversation is the user's direct message with himself, as the server says. */
  predicate IsSelfDm(w: World, conversationId: Text) {
    var summary := w.conversation(conversationId);
    summary.Some? && SummaryIsSelfDm(w.me, summary.value)
  }

  function Right(t: Text, n: nat): Text {
    if |t| <= n then t else t[|t| - n..]
  }

  /** Outgoing by device in a direct message with oneself, by user anywhere else. */
  predicate IsOutgoing(w: World, selfDm: bool, env: Envelope) {
    if selfDm then w.me.deviceId != [] && env.senderDeviceId == w.me.deviceId
    else w.me.userId != [] && env.senderUserId == w.me.userId
  }

  function AuthorLabel(w: World, outgoing: bool, senderUserId: Text): Text {
    if outgoing then (if w.me.username == [] then Ascii("me") else w.me.username)
    else
      var resolved := w.username(senderUserId);
      if senderUserId != [] && resolved.Some? && resolved.value != [] then resolved.value else senderUserId
  }

  /** The message built from an envelope; the fields it does not set keep their defaults. */
  function MessageOf(u: Utf8, w: World, selfDm: bool, env: Envelope): Message {
    var at := env.serverTimestamp * MILLIS_PER_SECOND;
    var plaintext := Displayed(u, env.ciphertext);
    var outgoing := IsOutgoing(w, selfDm, env);
    Message(
      env.envelopeId, env.conversationId, AuthorLabel(w, outgoing, env.senderUserId), env.senderDeviceId,
      0, at, at, TextContent, env.ciphertext,
      if plaintext.Some? then plaintext.value
      else Ascii("[Encrypted envelope ") + Right(env.envelopeId, ID_SUFFIX_LENGTH) + Ascii("]"),
      Draft, outgoing, None, 0)
  }

  /** An envelope together with the self-conversation flag its route gave it. */
  datatype Delivery = Delivery(env: Envelope, selfDm: bool)

  function Built(u: Utf8, w: World, ds: seq<Delivery>): (ms: seq<Message>)
    ensures |ms| == |ds|
  {
    seq(|ds|, i requires 0 <= i < |ds| => MessageOf(u, w, ds[i].selfDm, ds[i].env))
  }

  function Deliver(u: Utf8, w: World, t: Table, ds: seq<Delivery>): Table {
    UpsertAll(t, Built(u, w, ds))
  }

  /** The flag a pushed or polled envelope gets: the one remembered for the open conversation,
      or a fresh lookup for any other. */
  function PushFlag(w: World, selectedId: Text, selectedIsSelfDm: bool, env: Envelope): bool {
    if env.conversationId == selectedId then selectedIsSelfDm else IsSelfDm(w, env.conversationId)
  }

  function Pushed(w: World, selectedId: Text, selectedIsSelfDm: bool, envs: seq<Envelope>): (ds: seq<Delivery>)
    ensures |ds| == |envs|
  {
    seq(|envs|, i requires 0 <= i < |envs| => Delivery(envs[i], PushFlag(w, selectedId, selectedIsSelfDm, envs[i])))
  }

  function Loaded(selfDm: bool, envs: seq<Envelope>): (ds: seq<Delivery>)
    ensures |ds| == |envs|
  {
    seq(|envs|, i requires 0 <= i < |envs| => Delivery(envs[i], selfDm))
  }

  datatype Batch = Batch(envelopes: seq<Envelope>, nextCursor: Text)

  /** A delivery and whether its row could be written. */
  datatype Attempt = Attempt(delivery: Delivery, written: bool)

  function Attempts(ds: seq<Delivery>, writeOk: nat -> bool): (tried: seq<Attempt>)
    ensures |tried| == |ds|
  {
    seq(|ds|, i requires 0 <= i < |ds| => Attempt(ds[i], writeOk(i)))
  }

  function Written(tried: seq<Attempt>): seq<Delivery> {
    if tried == [] then []
    else
      var last := tried[|tried| - 1];
      Written(tried[..|tried| - 1]) + if last.written then [last.delivery] else []
  }

  /** What the handlers share: the table, the cursor, the open conversation and the flag
      remembered for it. */
  datatype View = View(messages: Table, cursor: Text, selectedId: Text, selectedIsSelfDm: bool)

  /** `Open` is every change of the open conversation that leaves the flag alone: the first one
      opened automatically, one just created, and a logout, which opens none. */
  datatype Event =
    | Push(env: Envelope, writeOk: bool)
    | Poll(batch: Option<Batch>, writesOk: nat -> bool)
    | Select(conversationId: Text, history: Option<Batch>, writesOk: nat -> bool)
    | Open(conversationId: Text)

  /** The envelopes an event brings, with the flags they get and the outcomes of their writes. */
  function Tried(w: World, v: View, e: Event): seq<Attempt> {
    match e
    case Push(env, writeOk) => Attempts(Pushed(w, v.selectedId, v.selectedIsSelfDm, [env]), (_: nat) => writeOk)
    case Poll(batch, writesOk) =>
      if batch.None? then []
      else Attempts(Pushed(w, v.selectedId, v.selectedIsSelfDm, batch.value.envelopes), writesOk)
    case Select(id, history, writesOk) =>
      if history.None? then [] else Attempts(Loaded(IsSelfDm(w, id), history.value.envelopes), writesOk)
    case Open(_) => []
  }

  /** The cursor moves on whether or not the rows could be written. */
  function Step(u: Utf8, w: World, v: View, e: Event): View {
    var now := v.(messages := Deliver(u, w, v.messages, Written(Tried(w, v, e))));
    match e
    case Push(_, _) => now
    case Poll(batch, _) => if batch.None? then now else now.(cursor := batch.value.nextCursor)
    case Select(id, _, _) =>
      now.(selectedId := id,
           selectedIsSelfDm := if w.conversation(id).Some? then IsSelfDm(w, id) else v.selectedIsSelfDm)
    case Open(id) => now.(selectedId := id)
  }

  lemma DeliverOneMore(u: Utf8, w: World, t: Table, ds: seq<Delivery>, d: Delivery)
    ensures Deliver(u, w, t, ds + [d]) == Upsert(Deliver(u, w, t, ds), MessageOf(u, w, d.selfDm, d.env))
  {
    assert Built(u, w, ds + [d])[..|ds|] == Built(u, w, ds);
  }

  lemma DeliverOne(u: Utf8, w: World, t: Table, d: Delivery)
    ensures Deliver(u, w, t, [d]) == Upsert(t, MessageOf(u, w, d.selfDm, d.env))
  {
    DeliverOneMore(u, w, t, [], d);
    assert [] + [d] == [d];
  }

  lemma TryOneMore(u: Utf8, w: World, t: Table, tried: seq<Attempt>, k: nat)
    requires k < |tried|
    ensures
      var before, now := Deliver(u, w, t, Written(tried[..k])), Deliver(u, w, t, Written(tried[..k + 1]));
      var d := tried[k].delivery;
      now == if tried[k].written then Upsert(before, MessageOf(u, w, d.selfDm, d.env)) else before
  {
    assert tried[..k + 1][..k] == tried[..k];
    DeliverOneMore(u, w, t, Written(tried[..k]), tried[k].delivery);
    assert Written(tried[..k]) + [] == Written(tried[..k]);
  }

  /** The part of the application that receives envelopes. */
  class Inbox {
    const u: Utf8
    const w: World
    var messages: Table
    var selectedConversationId: Text
    var selectedIsSelfDm: bool
    var pendingCursor: Text

    constructor (u: Utf8, w: World, stored: Table)
      ensures this.u == u && this.w == w && Now() == View(stored, [], [], false)
    {
      this.u, this.w, messages := u, w, stored;
      selectedConversationId, selectedIsSelfDm, pendingCursor := [], false, [];
    }

    ghost function Now(): View
      reads this
    {
      View(messages, pendingCursor, selectedConversationId, selectedIsSelfDm)
    }

    method UpsertMessage(m: Message, writeOk: bool) returns (ok: bool)
      modifies this`messages
      ensures ok == writeOk
      ensures messages == if writeOk then Upsert(old(messages), m) else old(messages)
    {
      if writeOk {
        messages := Upsert(messages, m);
      }
      return writeOk;
    }

    /** A pushed envelope. Nobody asks whether its row was written. */
    method ApplyEnvelope(env: Envelope, writeOk: bool)
      modifies this`messages
      ensures Now() == Step(u, w, old(Now()), Push(env, writeOk))
      ensures
        var d := Delivery(env, PushFlag(w, selectedConversationId, selectedIsSelfDm, env));
        messages == if writeOk then Upsert(old(messages), MessageOf(u, w, d.selfDm, env)) else old(messages)
    {
      var selfDm := selectedIsSelfDm;
      if env.conversationId != selectedConversationId {
        var summary := w.conversation(env.conversationId);
        selfDm := summary.Some? && SummaryIsSelfDm(w.me, summary.value);
      }
      ghost var tried := Tried(w, Now(), Push(env, writeOk));
      assert tried[..1] == tried && tried[..0] == [];
      TryOneMore(u, w, messages, tried, 0);
      var _ := UpsertMessage(MessageOf(u, w, selfDm, env), writeOk);
    }

    /** One tick of the poll timer: the cursor moves on before the envelopes are applied, and
        nothing changes when the request fails. */
    method PollPending(batch: Option<Batch>, writesOk: nat -> bool)
      modifies this`messages, this`pendingCursor
      ensures Now() == Step(u, w, old(Now()), Poll(batch, writesOk))
    {
      ghost var tried := Tried(w, Now(), Poll(batch, writesOk));
      if batch.None? {
        return;
      }
      pendingCursor := batch.value.nextCursor;
      var envs := batch.value.envelopes;
      for i := 0 to |envs|
        invariant messages == Deliver(u, w, old(messages), Written(tried[..i]))
        modifies this`messages
      {
        ApplyEnvelope(envs[i], writesOk(i));
        TryOneMore(u, w, old(messages), tried, i);
      }
      assert tried[..|envs|] == tried;
    }

    /** The history loop. */
    method LoadHistory(selfDm: bool, envs: seq<Envelope>, writesOk: nat -> bool)
      modifies this`messages
      ensures messages == Deliver(u, w, old(messages), Written(Attempts(Loaded(selfDm, envs), writesOk)))
    {
      ghost var tried := Attempts(Loaded(selfDm, envs), writesOk);
      for i := 0 to |envs|
        invariant messages == Deliver(u, w, old(messages), Written(tried[..i]))
      {
        TryOneMore(u, w, old(messages), tried, i);
        var _ := UpsertMessage(MessageOf(u, w, selfDm, envs[i]), writesOk(i));
      }
      assert tried[..|envs|] == tried;
    }

    /** Opening a conversation: its flag is refreshed only when the summary can be fetched. */
    method SelectConversation(conversationId: Text, history: Option<Batch>, writesOk: nat -> bool)
      modifies this`messages, this`selectedConversationId, this`selectedIsSelfDm
      ensures Now() == Step(u, w, old(Now()), Select(conversationId, history, writesOk))
    {
      selectedConversationId := conversationId;
      var summary := w.conversation(conversationId);
      var selfDm := false;
      if summary.Some? {
        selfDm := SummaryIsSelfDm(w.me, summary.value);
      }
      if history.Some? {
        LoadHistory(selfDm, history.value.envelopes, writesOk);
      }
      if summary.Some? {
        selectedIsSelfDm := selfDm;
      }
    }

    /** After a refresh of the conversation list the first one is opened if none is. */
    method OpenFirst(conversations: seq<Text>)
      modifies this`selectedConversationId
      ensures
        var opens := old(selectedConversationId) == [] && conversations != [];
        Now() == Step(u, w, old(Now()), Open(if opens then conversations[0] else old(selectedConversationId)))
    {
      if selectedConversationId == [] && conversations != [] {
        selectedConversationId := conversations[0];
      }
    }

    /** What a logout does to the inbox. */
    method Close()
      modifies this`selectedConversationId
      ensures Now() == Step(u, w, old(Now()), Open([]))
    {
      selectedConversationId := [];
    }
  }

  /** Whether an envelope is the user's own, by the flag of its route: sent from this device in a
      conversation with oneself, and by this user in any other. */
  predicate Own(w: World, flag: bool, env: Envelope) {
    || (flag && w.me.deviceId != [] && env.senderDeviceId == w.me.deviceId)
    || (!flag && w.me.userId != [] && env.senderUserId == w.me.userId)
  }

  /** The row that an envelope leaves under its id, column by column. */
  predicate RowFor(u: Utf8, w: World, t: Table, flag: bool, env: Envelope, row: Row) {
    var name := w.username(env.senderUserId);
    var shown := Displayed(u, env.ciphertext);
    var n := |env.envelopeId|;
    && row.isOutgoing == Own(w, flag, env)
    && row.senderUserId ==
       (if Own(w, flag, env) then (if w.me.username != [] then w.me.username else Ascii("me"))
        else if env.senderUserId != [] && name.Some? && name.value != [] then name.value
        else env.senderUserId)
    && row.senderDeviceId == env.senderDeviceId
    && row.serverReceivedAtMs == env.serverTimestamp * 1000 && row.clientCreatedAtMs == env.serverTimestamp * 1000
    && row.ciphertextBlob == env.ciphertext
    && row.plaintextCache ==
       (if shown.Some? then shown.value
        else Ascii("[Encrypted envelope ") + env.envelopeId[if n > 6 then n - 6 else 0..] + Ascii("]"))
    && row.deliveryState == Draft
    && row.conversationId ==
       (if env.envelopeId in t then t[env.envelopeId].conversationId else env.conversationId)
    && (env.envelopeId !in t ==>
          row.contentKind == TextContent && row.readState == Unread && row.serverSeq == 0
          && row.replyToMessageId == [] && row.senderKeyEpoch == 0)
  }

  lemma DeliveredRow(u: Utf8, w: World, t: Table, d: Delivery)
    ensures
      var now := Deliver(u, w, t, [d]);
      && now.Keys == t.Keys + {d.env.envelopeId}
      && RowFor(u, w, t, d.selfDm, d.env, now[d.env.envelopeId])
      && forall id :: id in t && id != d.env.envelopeId ==> now[id] == t[id]
  {
    DeliverOne(u, w, t, d);
    UpsertColumns(t, MessageOf(u, w, d.selfDm, d.env));
    var n := |d.env.envelopeId|;
    assert Right(d.env.envelopeId, 6) == d.env.envelopeId[if n > 6 then n - 6 else 0..];
  }

  /** A pushed envelope whose row can be written: by the remembered flag if it is of the open
      conversation, and otherwise by whether the server says it is a direct conversation with the
      user himself. Everything else stays. */
  lemma PushedRow(u: Utf8, w: World, v: View, env: Envelope)
    ensures
      var now := Step(u, w, v, Push(env, true));
      var summary := w.conversation(env.conversationId);
      var withMe := summary.Some? && summary.value.kind == 0 && summary.value.peerUserId == Some(w.me.userId);
      var flag := if env.conversationId == v.selectedId then v.selectedIsSelfDm else withMe;
      && now == v.(messages := now.messages)
      && now.messages.Keys == v.messages.Keys + {env.envelopeId}
      && RowFor(u, w, v.messages, flag, env, now.messages[env.envelopeId])
      && forall id :: id in v.messages && id != env.envelopeId ==> now.messages[id] == v.messages[id]
  {
    var d := Delivery(env, PushFlag(w, v.selectedId, v.selectedIsSelfDm, env));
    var tried := Tried(w, v, Push(env, true));
    assert tried == [Attempt(d, true)];
    assert tried[..0] == [] && Written(tried) == [d];
    DeliveredRow(u, w, v.messages, d);
  }

  lemma WrittenSnoc(tried: seq<Attempt>, a: Attempt)
    ensures Written(tried + [a]) == Written(tried) + if a.written then [a.delivery] else []
  {
    assert (tried + [a])[..|tried|] == tried;
  }

  /** A poll is its envelopes pushed one after the other, and then the new cursor. */
  lemma PollIsPushes(u: Utf8, w: World, v: View, envs: seq<Envelope>, env: Envelope, cursor: Text,
                     writesOk: nat -> bool)
    ensures Step(u, w, v, Poll(Some(Batch([], cursor)), writesOk)) == v.(cursor := cursor)
    ensures
      var before := Step(u, w, v, Poll(Some(Batch(envs, cursor)), writesOk));
      Step(u, w, v, Poll(Some(Batch(envs + [env], cursor)), writesOk))
      == Step(u, w, before, Push(env, writesOk(|envs|)))
  {
    assert Built(u, w, []) == [];
    var few, all := Batch(envs, cursor), Batch(envs + [env], cursor);
    var d := Delivery(env, PushFlag(w, v.selectedId, v.selectedIsSelfDm, env));
    var a := Attempt(d, writesOk(|envs|));
    var tried := Tried(w, v, Poll(Some(few), writesOk));
    assert Tried(w, v, Poll(Some(all), writesOk)) == tried + [a];
    WrittenSnoc(tried, a);
    DeliverOneMore(u, w, v.messages, Written(tried), d);
    var before := Step(u, w, v, Poll(Some(few), writesOk));
    assert Tried(w, before, Push(env, writesOk(|envs|))) == [a] == [] + [a];
    WrittenSnoc([], a);
    DeliverOne(u, w, before.messages, d);
    assert Written(tried) + [] == Written(tried);
  }

  /** An envelope of a history, by what the server says of the conversation that was selected. */
  lemma LoadedRow(u: Utf8, w: World, v: View, id: Text, env: Envelope, cursor: Text)
    ensures
      var now := Step(u, w, v, Select(id, Some(Batch([env], cursor)), (_: nat) => true));
      var summary := w.conversation(id);
      var withMe := summary.Some? && summary.value.kind == 0 && summary.value.peerUserId == Some(w.me.userId);
      && now.selectedId == id && now.cursor == v.cursor
      && now.selectedIsSelfDm == (if summary.Some? then withMe else v.selectedIsSelfDm)
      && now.messages.Keys == v.messages.Keys + {env.envelopeId}
      && RowFor(u, w, v.messages, withMe, env, now.messages[env.envelopeId])
  {
    var works := (_: nat) => true;
    var d := Delivery(env, IsSelfDm(w, id));
    var tried := Tried(w, v, Select(id, Some(Batch([env], cursor)), works));
    assert tried == [Attempt(d, true)];
    assert tried[..0] == [] && Written(tried) == [d];
    DeliveredRow(u, w, v.messages, d);
  }

  /** The server's echo of a message sent from this device stays on the outgoing side whatever
      flag its route gave it, takes the row's delivery state back to its default, and keeps the
      cached plaintext exactly when the UTF-8 decoder leaves that alone. */
  lemma EchoKeepsPlaintext(u: Utf8, w: World, t: Table, sent: Message, env: Envelope, selfDm: bool)
    requires sent.plaintextCache != []
    requires sent.ciphertextBlob == EncryptForTransport(sent.plaintextCache)
    requires env.envelopeId == sent.messageId && env.ciphertext == sent.ciphertextBlob
    requires w.me.deviceId != [] && env.senderDeviceId == w.me.deviceId
    requires w.me.userId != [] && env.senderUserId == w.me.userId
    ensures
      var row := Deliver(u, w, Upsert(t, sent), [Delivery(env, selfDm)])[sent.messageId];
      && (row.plaintextCache == sent.plaintextCache <==> IsText(u, sent.plaintextCache))
      && row.ciphertextBlob == sent.ciphertextBlob
      && row.isOutgoing && row.deliveryState == Draft
      && row.conversationId == Upsert(t, sent)[sent.messageId].conversationId
  {
    TransportRoundTrip(u, sent.plaintextCache);
    DeliverOne(u, w, Upsert(t, sent), Delivery(env, selfDm));
  }
}
