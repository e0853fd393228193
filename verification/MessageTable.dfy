/** The messages table: one row per message id, written only by an upsert that replaces some of
    the columns of an existing row. */
module MessageTable {
  import opened ByteStrings

  datatype DeliveryState =
    | Draft | Queued | Encrypting | UploadingAttachments | Sending
    | SentToServer | DeliveredToPeerDevices | ReadLocal | Failed

  datatype ContentKind = TextContent | AttachmentContent | SystemContent

  datatype ReadState = Unread | Read

  datatype Message = Message(
    messageId: Text,
    conversationId: Text,
    senderUserId: Text,
    senderDeviceId: Text,
    serverSeq: int,
    clientCreatedAtMs: int,
    serverReceivedAtMs: int,
    contentKind: ContentKind,
    ciphertextBlob: Bytes,
    plaintextCache: Bytes,
    deliveryState: DeliveryState,
    isOutgoing: bool,
    replyToMessageId: Option<Text>,
    senderKeyEpoch: int)

  /** The columns of a row besides its key. */
  datatype Row = Row(
    conversationId: Text,
    senderUserId: Text,
    senderDeviceId: Text,
    serverSeq: int,
    clientCreatedAtMs: int,
    serverReceivedAtMs: int,
    contentKind: ContentKind,
    ciphertextBlob: Bytes,
    plaintextCache: Bytes,
    deliveryState: DeliveryState,
    readState: ReadState,
    isOutgoing: bool,
    replyToMessageId: Text,
    senderKeyEpoch: int)

  type Table = map<Text, Row>

  function Inserted(m: Message): Row {
    Row(m.conversationId, m.senderUserId, m.senderDeviceId, m.serverSeq, m.clientCreatedAtMs, m.serverReceivedAtMs,
        m.contentKind, m.ciphertextBlob, m.plaintextCache, m.deliveryState, Unread, m.isOutgoing,
        if m.replyToMessageId.Some? then m.replyToMessageId.value else [], m.senderKeyEpoch)
  }

  /** ON CONFLICT(message_id) DO UPDATE */
  function Updated(row: Row, m: Message): Row {
    row.(senderUserId := m.senderUserId,
         senderDeviceId := m.senderDeviceId,
         clientCreatedAtMs := m.clientCreatedAtMs,
         serverReceivedAtMs := m.serverReceivedAtMs,
         ciphertextBlob := m.ciphertextBlob,
         plaintextCache := m.plaintextCache,
         deliveryState := m.deliveryState,
         isOutgoing := m.isOutgoing)
  }

  function Merged(t: Table, m: Message): Row {
    if m.messageId in t then Updated(t[m.messageId], m) else Inserted(m)
  }

  function Upsert(t: Table, m: Message): Table {
    t[m.messageId := Merged(t, m)]
  }

  /** The row after an upsert, column by column: eight columns are the message's, and six are those
      of the row that was there, or the message's own and unread. */
  lemma UpsertColumns(t: Table, m: Message)
    ensures m.messageId in Upsert(t, m)
    ensures
      var row := Upsert(t, m)[m.messageId];
      && row.senderUserId == m.senderUserId && row.senderDeviceId == m.senderDeviceId
      && row.clientCreatedAtMs == m.clientCreatedAtMs && row.serverReceivedAtMs == m.serverReceivedAtMs
      && row.ciphertextBlob == m.ciphertextBlob && row.plaintextCache == m.plaintextCache
      && row.deliveryState == m.deliveryState && row.isOutgoing == m.isOutgoing
      && if m.messageId in t then
           var was := t[m.messageId];
           && row.conversationId == was.conversationId && row.serverSeq == was.serverSeq
           && row.contentKind == was.contentKind && row.readState == was.readState
           && row.replyToMessageId == was.replyToMessageId && row.senderKeyEpoch == was.senderKeyEpoch
         else
           && row.conversationId == m.conversationId && row.serverSeq == m.serverSeq
           && row.contentKind == m.contentKind && row.readState == Unread
           && row.replyToMessageId == (if m.replyToMessageId.Some? then m.replyToMessageId.value else [])
           && row.senderKeyEpoch == m.senderKeyEpoch
    ensures forall id :: id != m.messageId ==>
              (id in Upsert(t, m) <==> id in t) && (id in t ==> Upsert(t, m)[id] == t[id])
  {
  }

  function UpsertAll(t: Table, ms: seq<Message>): Table {
    if ms == [] then t else Upsert(UpsertAll(t, ms[..|ms| - 1]), ms[|ms| - 1])
  }

  lemma {:induction false} UpsertAllConcat(t: Table, a: seq<Message>, b: seq<Message>)
    ensures UpsertAll(t, a + b) == UpsertAll(UpsertAll(t, a), b)
  {
    if b == [] {
      assert a + b == a;
    } else {
      var n := |b| - 1;
      UpsertAllConcat(t, a, b[..n]);
      assert (a + b)[..|a| + n] == a + b[..n];
    }
  }

  /** The first and the last message of a sequence under its id. */
  predicate IsFirst(ms: seq<Message>, i: int) {
    0 <= i < |ms| && forall k :: 0 <= k < i ==> ms[k].messageId != ms[i].messageId
  }

  predicate IsLast(ms: seq<Message>, j: int) {
    0 <= j < |ms| && forall k :: j < k < |ms| ==> ms[k].messageId != ms[j].messageId
  }

  lemma {:induction false} LastExists(ms: seq<Message>, i: nat) returns (j: nat)
    requires i < |ms|
    ensures IsLast(ms, j) && ms[j].messageId == ms[i].messageId
    decreases |ms| - i
  {
    if k :| i < k < |ms| && ms[k].messageId == ms[i].messageId {
      j := LastExists(ms, k);
    } else {
      j := i;
    }
  }

  lemma {:induction false} FirstExists(ms: seq<Message>, j: nat) returns (i: nat)
    requires j < |ms|
    ensures IsFirst(ms, i) && ms[i].messageId == ms[j].messageId
  {
    if k :| 0 <= k < j && ms[k].messageId == ms[j].messageId {
      i := FirstExists(ms, k);
    } else {
      i := j;
    }
  }

  lemma {:induction false} UpsertAllKeys(t: Table, ms: seq<Message>, id: Text)
    ensures id in UpsertAll(t, ms) <==> id in t || exists i :: 0 <= i < |ms| && ms[i].messageId == id
  {
    if ms != [] {
      UpsertAllKeys(t, ms[..|ms| - 1], id);
    }
  }

  lemma {:induction false} OtherRowsKept(t: Table, ms: seq<Message>, id: Text)
    requires id in t && forall m :: m in ms ==> m.messageId != id
    ensures id in UpsertAll(t, ms) && UpsertAll(t, ms)[id] == t[id]
  {
    if ms != [] {
      assert ms[|ms| - 1] in ms;
      OtherRowsKept(t, ms[..|ms| - 1], id);
    }
  }

  lemma {:induction false} RowOutcome(t: Table, ms: seq<Message>, i: nat, j: nat)
    requires IsFirst(ms, i) && IsLast(ms, j) && ms[i].messageId == ms[j].messageId
    ensures ms[i].messageId in UpsertAll(t, ms)
    ensures UpsertAll(t, ms)[ms[i].messageId] == Updated(Merged(t, ms[i]), ms[j])
  {
    var n, id := |ms| - 1, ms[i].messageId;
    var init := ms[..n];
    if j < n {
      RowOutcome(t, init, i, j);
    } else if i < n {
      var k := LastExists(init, i);
      RowOutcome(t, init, i, k);
    } else {
      UpsertAllKeys(t, init, id);
      if id in t {
        OtherRowsKept(t, init, id);
      }
    }
  }

  /** The outcome of any sequence of upserts, row by row, in terms of the starting table: the last
      message under an id fills the columns that are updated, and the first one the others, unless
      the row was there already. */
  lemma UpsertAllRows(t: Table, ms: seq<Message>)
    ensures forall i, j :: IsFirst(ms, i) && IsLast(ms, j) && ms[i].messageId == ms[j].messageId ==>
              && ms[j].messageId in UpsertAll(t, ms)
              && UpsertAll(t, ms)[ms[j].messageId] == Updated(Merged(t, ms[i]), ms[j])
    ensures forall id :: id in t && (forall m :: m in ms ==> m.messageId != id) ==>
              id in UpsertAll(t, ms) && UpsertAll(t, ms)[id] == t[id]
    ensures forall id :: id in UpsertAll(t, ms) <==> id in t || exists m :: m in ms && m.messageId == id
  {
    forall i, j | IsFirst(ms, i) && IsLast(ms, j) && ms[i].messageId == ms[j].messageId
      ensures ms[j].messageId in UpsertAll(t, ms)
      ensures UpsertAll(t, ms)[ms[j].messageId] == Updated(Merged(t, ms[i]), ms[j])
    {
      RowOutcome(t, ms, i, j);
    }
    forall id | id in t && forall m :: m in ms ==> m.messageId != id
      ensures id in UpsertAll(t, ms) && UpsertAll(t, ms)[id] == t[id]
    {
      OtherRowsKept(t, ms, id);
    }
    forall id
      ensures id in UpsertAll(t, ms) <==> id in t || exists m :: m in ms && m.messageId == id
    {
      UpsertAllKeys(t, ms, id);
    }
  }

  /** The columns outside the update list keep the values of the first insertion. */
  lemma {:induction false} OtherColumnsKept(t: Table, ms: seq<Message>, id: Text)
    requires id in t
    ensures id in UpsertAll(t, ms)
    ensures
      var was, now := t[id], UpsertAll(t, ms)[id];
      && now.conversationId == was.conversationId && now.serverSeq == was.serverSeq
      && now.contentKind == was.contentKind && now.readState == was.readState
      && now.replyToMessageId == was.replyToMessageId && now.senderKeyEpoch == was.senderKeyEpoch
  {
    if ms != [] {
      OtherColumnsKept(t, ms[..|ms| - 1], id);
    }
  }
}
