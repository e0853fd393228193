/** Encrypted attachments: uploaded in one chunk, and read through a local file store. */
module Attachments {
  import opened ByteStrings
  import Runs

  type Store = map<Text, Bytes>

  /** The contents the server has finalized, and the local files. */
  datatype State = State(server: Store, local: Store)

  /** What happens to an upload on its way: the id the server gives it, whether the chunk
      arrives, whether the server finalizes it, whether the client learns that, and whether the
      local file can be written. */
  datatype Luck = Luck(id: Option<Text>, chunkOk: bool, finalized: bool, finalizeSeen: bool, writeOk: bool)

  function UploadStep(s: State, conversationId: Text, ciphertext: Bytes, k: Luck): (State, Option<Text>) {
    if conversationId == [] || ciphertext == [] || k.id.None? || !k.chunkOk then (s, None)
    else
      var s1 := if k.finalized then s.(server := s.server[k.id.value := ciphertext]) else s;
      if !k.finalized || !k.finalizeSeen || !k.writeOk then (s1, None)
      else (s1.(local := s1.local[k.id.value := ciphertext]), Some(k.id.value))
  }

  function DownloadStep(s: State, id: Text, requestOk: bool, writeOk: bool): (State, Option<Bytes>) {
    if id in s.local then (s, Some(s.local[id]))
    else if !requestOk || id !in s.server || !writeOk then (s, None)
    else (s.(local := s.local[id := s.server[id]]), Some(s.server[id]))
  }

  datatype Event =
    | Upload(conversationId: Text, ciphertext: Bytes, luck: Luck)
    | Download(id: Text, requestOk: bool, writeOk: bool)
    | UploadByOthers(id: Text, content: Bytes)

  function Step(s: State, e: Event): State {
    match e
    case Upload(conversationId, ciphertext, luck) => UploadStep(s, conversationId, ciphertext, luck).0
    case Download(id, requestOk, writeOk) => DownloadStep(s, id, requestOk, writeOk).0
    case UploadByOthers(id, content) => s.(server := s.server[id := content])
  }

  function Next(): (State, Event) -> State {
    (s, e) => Step(s, e)
  }

  /** The server gives every upload a new id. */
  predicate FreshIds(s: State, e: Event) {
    match e
    case Upload(_, _, luck) => luck.id.Some? ==> luck.id.value !in s.server
    case Download(_, _, _) => true
    case UploadByOthers(id, _) => id !in s.server
  }

  class AttachmentService {
    var server: Store
    var local: Store

    constructor (server: Store, local: Store)
      ensures this.server == server && this.local == local
    {
      this.server, this.local := server, local;
    }

    function Abstract(): State
      reads this
    {
      State(server, local)
    }

    method UploadEncrypted(conversationId: Text, ciphertext: Bytes, k: Luck) returns (id: Option<Text>)
      modifies this
      ensures (Abstract(), id) == UploadStep(old(Abstract()), conversationId, ciphertext, k)
    {
      if conversationId == [] || ciphertext == [] {
        return None;
      }
      if k.id.None? {
        return None;
      }
      if !k.chunkOk {
        return None;
      }
      if k.finalized {
        server := server[k.id.value := ciphertext];
      }
      if !k.finalized || !k.finalizeSeen {
        return None;
      }
      if !k.writeOk {
        return None;
      }
      local := local[k.id.value := ciphertext];
      id := k.id;
    }

    method DownloadEncrypted(id: Text, requestOk: bool, writeOk: bool) returns (content: Option<Bytes>)
      modifies this`local
      ensures (Abstract(), content) == DownloadStep(old(Abstract()), id, requestOk, writeOk)
    {
      if id in local {
        return Some(local[id]);
      }
      if !requestOk || id !in server {
        return None;
      }
      if !writeOk {
        return None;
      }
      local := local[id := server[id]];
      content := Some(server[id]);
    }
  }

  predicate SubMap(a: Store, b: Store) {
    forall id :: id in a ==> id in b && b[id] == a[id]
  }

  predicate Coherent(s: State) {
    SubMap(s.local, s.server)
  }

  /** In every state of every run, the local store is part of the server's contents. */
  lemma CacheCoherent(s: State, events: seq<Event>, i: nat)
    requires Coherent(s) && i <= |events| && Runs.Guarded(Next(), FreshIds, s, events)
    ensures Coherent(Runs.At(Next(), s, events, i))
  {
    Runs.Invariant(Next(), FreshIds, Coherent, s, events, i);
  }

  /** A download answers exactly when the bytes are local, or can be fetched and kept. */
  lemma DownloadAnswersIff(s: State, id: Text, requestOk: bool, writeOk: bool)
    ensures
      var (s', content) := DownloadStep(s, id, requestOk, writeOk);
      && (content.Some? <==> id in s.local || (requestOk && id in s.server && writeOk))
      && s'.server == s.server
      && (content.Some? ==> id in s'.local && content.value == s'.local[id])
      && forall other :: other != id ==>
           (other in s'.local <==> other in s.local) && (other in s.local ==> s'.local[other] == s.local[other])
  {
  }

  /** An upload answers with the server's id exactly when every part of it works; then both sides
      hold the bytes. The server may hold them without the client knowing. */
  lemma UploadAnswersIff(s: State, conversationId: Text, ciphertext: Bytes, k: Luck)
    ensures
      var (s', id) := UploadStep(s, conversationId, ciphertext, k);
      && (id.Some? <==> conversationId != [] && ciphertext != [] && k.id.Some? && k.chunkOk
                        && k.finalized && k.finalizeSeen && k.writeOk)
      && (id.Some? ==>
            && id == k.id && id.value in s'.server && s'.server[id.value] == ciphertext
            && s'.local == s.local[id.value := ciphertext])
      && (id.None? ==> s'.local == s.local)
      && (s'.server != s.server ==>
            && conversationId != [] && ciphertext != [] && k.id.Some? && k.chunkOk && k.finalized
            && s'.server == s.server[k.id.value := ciphertext])
      && (conversationId != [] && ciphertext != [] && k.id.Some? && k.chunkOk && k.finalized ==>
            k.id.value in s'.server && s'.server[k.id.value] == ciphertext)
  {
  }

  /** What a coherent state's download returns is the server's content, and asking again later,
      after anything else has happened, with or without a network, returns the same bytes. */
  lemma DownloadsAgree(s: State, events: seq<Event>, i: nat, id: Text, requestOk: bool, writeOk: bool,
                       requestOk': bool, writeOk': bool)
    requires Coherent(s) && i <= |events|
    requires
      var s1 := DownloadStep(s, id, requestOk, writeOk).0;
      Runs.Guarded(Next(), FreshIds, s1, events)
    ensures
      var (s1, first) := DownloadStep(s, id, requestOk, writeOk);
      first.Some? ==>
        && id in s.server && first.value == s.server[id]
        && DownloadStep(Runs.At(Next(), s1, events, i), id, requestOk', writeOk').1 == first
  {
    var (s1, first) := DownloadStep(s, id, requestOk, writeOk);
    if first.Some? {
      LocalStays(s1, events, i, id);
    }
  }

  /** A successful upload is what every later download of its id returns. */
  lemma UploadThenDownload(s: State, conversationId: Text, ciphertext: Bytes, k: Luck, events: seq<Event>, i: nat,
                           requestOk: bool, writeOk: bool)
    requires Coherent(s) && i <= |events| && FreshIds(s, Upload(conversationId, ciphertext, k))
    requires
      var s1 := UploadStep(s, conversationId, ciphertext, k).0;
      Runs.Guarded(Next(), FreshIds, s1, events)
    ensures
      var (s1, id) := UploadStep(s, conversationId, ciphertext, k);
      id.Some? ==> DownloadStep(Runs.At(Next(), s1, events, i), id.value, requestOk, writeOk).1 == Some(ciphertext)
  {
    var (s1, id) := UploadStep(s, conversationId, ciphertext, k);
    if id.Some? {
      LocalStays(s1, events, i, id.value);
    }
  }

  lemma LocalStays(s: State, events: seq<Event>, i: nat, id: Text)
    requires Coherent(s) && i <= |events| && id in s.local && Runs.Guarded(Next(), FreshIds, s, events)
    ensures id in Runs.At(Next(), s, events, i).local && Runs.At(Next(), s, events, i).local[id] == s.local[id]
  {
    var inv := (t: State) => Coherent(t) && id in t.local && t.local[id] == s.local[id];
    Runs.Invariant(Next(), FreshIds, inv, s, events, i);
  }
}
