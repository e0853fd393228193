/** The one-time prekeys: a queue of key pairs, each a JSON object, the queue a JSON array of
    those objects' bytes, kept as one secret of the vault. */
module PrekeyQueue {
  import opened ByteStrings
  import opened JsonDocs
  import Base64
  import DM = DurableMap
  import Runs

  const QUEUE_NAME: Text := Ascii("one_time_prekeys")
  const PUB: Text := Ascii("pub")
  const PRIV: Text := Ascii("priv")

  datatype Pair = Pair(pub: Bytes, priv: Bytes)

  function EntryOf(json: Codec, pair: Pair): Bytes {
    json.render(Object(map[PUB := String(ToB64(pair.pub)), PRIV := String(ToB64(pair.priv))]))
  }

  function Entries(json: Codec, pairs: seq<Pair>): (es: seq<Bytes>)
    ensures |es| == |pairs|
  {
    seq(|pairs|, i requires 0 <= i < |pairs| => EntryOf(json, pairs[i]))
  }

  function PrivOf(json: Codec, entry: Bytes): Bytes {
    FromB64(Field(json.parse(entry), PRIV))
  }

  lemma PrivOfEntry(json: Codec, pair: Pair)
    requires json.Lawful()
    ensures PrivOf(json, EntryOf(json, pair)) == pair.priv
  {
    assert |PUB| == 3 && |PRIV| == 4;
    FromToB64(pair.priv);
  }

  function EncodeQueue(json: Codec, entries: seq<Bytes>): Bytes {
    json.render(ListDoc(entries))
  }

  function DecodeQueue(json: Codec, encoded: Bytes): seq<Bytes> {
    if encoded == [] then [] else ListOf(json.parse(encoded))
  }

  /** A queue survives its encoding, whatever bytes its entries are. */
  lemma DecodeEncode(json: Codec, entries: seq<Bytes>)
    requires json.Lawful()
    ensures EncodeQueue(json, entries) != []
    ensures DecodeQueue(json, EncodeQueue(json, entries)) == entries
  {
    ListRoundTrip(entries);
  }

  /** The queue in a set of secrets; any other content of the secret reads as some queue too. */
  function QueueIn(json: Codec, secrets: DM.Secrets): seq<Bytes> {
    DecodeQueue(json, if QUEUE_NAME in secrets then secrets[QUEUE_NAME] else [])
  }

  /** The queue as `loadSecret` shows it: empty while the vault is locked. */
  function OpenQueue(json: Codec, v: DM.Vault): seq<Bytes> {
    if v.session.Some? then QueueIn(json, v.session.value.secrets) else []
  }

  /** `pairs` are the key pairs that could be generated. Whether the vault could be saved is
      not looked at. */
  function PublishStep(json: Codec, v: DM.Vault, count: int, pairs: seq<Pair>, saveOk: bool): (DM.Vault, seq<Bytes>) {
    if count <= 0 || v.session.None? then (v, [])
    else
      var queue := OpenQueue(json, v) + Entries(json, pairs);
      (DM.StoreStep(v, QUEUE_NAME, EncodeQueue(json, queue), saveOk).0,
       seq(|pairs|, i requires 0 <= i < |pairs| => pairs[i].pub))
  }

  function ConsumeStep(json: Codec, v: DM.Vault, saveOk: bool): (DM.Vault, Option<Bytes>) {
    var queue := OpenQueue(json, v);
    if queue == [] then (v, None)
    else (DM.StoreStep(v, QUEUE_NAME, EncodeQueue(json, queue[1..]), saveOk).0, Some(PrivOf(json, queue[0])))
  }

  // ---- runs ----

  datatype Event =
    | Publish(count: int, pairs: seq<Pair>, saveOk: bool)
    | Consume(saveOk: bool)
    | Other(op: DM.Op)

  /** The vault, with all key pairs generated, all public keys answered for publication and all
      private keys handed out so far, in order, and whether the queue in memory was changed since
      the last successful save. */
  datatype Ledger = Ledger(
    vault: DM.Vault, pairs: seq<Pair>, published: seq<Bytes>, consumed: seq<Bytes>, unsaved: bool)

  function Privs(pairs: seq<Pair>): (ps: seq<Bytes>)
    ensures |ps| == |pairs|
  {
    seq(|pairs|, i requires 0 <= i < |pairs| => pairs[i].priv)
  }

  /** After a store of the queue: nothing is unsaved if the save worked; otherwise what was
      changed now, or before, is. */
  predicate Unsaved(v: DM.Vault, saveOk: bool, changed: bool, unsaved: bool) {
    !(v.session.Some? && v.session.value.sealable && saveOk) && (changed || unsaved)
  }

  function Step(json: Codec, l: Ledger, e: Event): Ledger {
    match e
    case Publish(count, pairs, saveOk) =>
      var (v, created) := PublishStep(json, l.vault, count, pairs, saveOk);
      if count <= 0 || l.vault.session.None? then l
      else Ledger(v, l.pairs + pairs, l.published + created, l.consumed,
                  Unsaved(l.vault, saveOk, pairs != [], l.unsaved))
    case Consume(saveOk) =>
      var (v, key) := ConsumeStep(json, l.vault, saveOk);
      if key.None? then l
      else l.(vault := v, consumed := l.consumed + [key.value], unsaved := Unsaved(l.vault, saveOk, true, l.unsaved))
    case Other(op) =>
      l.(vault := DM.Step(l.vault, op).0, unsaved := !DM.Wrote(l.vault, op) && !op.Lock? && l.unsaved)
  }

  function Next(json: Codec): (Ledger, Event) -> Ledger {
    (l, e) => Step(json, l, e)
  }

  function PrivsOf(json: Codec, queue: seq<Bytes>): (ps: seq<Bytes>)
    ensures |ps| == |queue|
  {
    seq(|queue|, i requires 0 <= i < |queue| => PrivOf(json, queue[i]))
  }

  lemma PrivsConcat(a: seq<Pair>, b: seq<Pair>)
    ensures Privs(a + b) == Privs(a) + Privs(b)
  {
  }

  lemma PrivsOfConcat(json: Codec, a: seq<Bytes>, b: seq<Bytes>)
    ensures PrivsOf(json, a + b) == PrivsOf(json, a) + PrivsOf(json, b)
  {
  }

  lemma PrivsOfAppend(json: Codec, queue: seq<Bytes>, pairs: seq<Pair>)
    requires json.Lawful()
    ensures PrivsOf(json, queue + Entries(json, pairs)) == PrivsOf(json, queue) + Privs(pairs)
  {
    forall i | 0 <= i < |pairs|
      ensures PrivOf(json, Entries(json, pairs)[i]) == Privs(pairs)[i]
    {
      PrivOfEntry(json, pairs[i]);
    }
    assert PrivsOf(json, Entries(json, pairs)) == Privs(pairs);
    PrivsOfConcat(json, queue, Entries(json, pairs));
  }

  /** The private keys queued: in memory while the vault is open, on disk while it is locked. */
  function Queued(json: Codec, v: DM.Vault): seq<Bytes> {
    PrivsOf(json,
            if v.session.Some? then QueueIn(json, v.session.value.secrets)
            else if v.saved.Some? then QueueIn(json, v.saved.value.secrets)
            else [])
  }

  /** What is in memory, if anything, is queued on disk too. */
  predicate Settled(json: Codec, v: DM.Vault) {
    v.session.Some? ==> Queued(json, DM.LockStep(v)) == Queued(json, v)
  }

  /** Nobody else writes the queue's secret. */
  predicate HandsOff(e: Event) {
    e.Other? ==>
      match e.op
      case Store(name, _, _) => name != QUEUE_NAME
      case Remove(name, _) => name != QUEUE_NAME
      case _ => true
  }

  /** In addition, an open vault is not locked or unlocked anew between a change of the queue
      whose save failed and the next save that works. */
  predicate Careful(json: Codec, l: Ledger, e: Event) {
    HandsOff(e) && (e.Other? && (e.op.Lock? || e.op.Unlock?) && l.vault.session.Some? ==> !l.unsaved)
  }

  function Care(json: Codec): (Ledger, Event) -> bool {
    (l, e) => Careful(json, l, e)
  }

  predicate Conserved(json: Codec, before: seq<Bytes>, l: Ledger) {
    before + Privs(l.pairs) == l.consumed + Queued(json, l.vault)
  }

  /** What is not marked unsaved is settled. */
  predicate Tracked(json: Codec, l: Ledger) {
    !l.unsaved ==> Settled(json, l.vault)
  }

  /** A ledger at the start of a run. */
  function Start(json: Codec, v: DM.Vault): Ledger {
    Ledger(v, [], [], [], !Settled(json, v))
  }

  lemma Associative<T>(a: seq<T>, b: seq<T>, c: seq<T>)
    ensures a + (b + c) == (a + b) + c
  {
  }

  lemma AppendBoth<T>(a: seq<T>, b: seq<T>, c: seq<T>, d: seq<T>, more: seq<T>)
    requires a + b == c + d
    ensures a + (b + more) == c + (d + more)
  {
    Associative(a, b, more);
    Associative(c, d, more);
  }

  lemma PublishAppends(json: Codec, v: DM.Vault, count: int, pairs: seq<Pair>, saveOk: bool)
    requires json.Lawful() && count > 0 && v.session.Some?
    ensures
      var (v', created) := PublishStep(json, v, count, pairs, saveOk);
      Queued(json, v') == Queued(json, v) + Privs(pairs)
  {
    var queue := OpenQueue(json, v);
    DecodeEncode(json, queue + Entries(json, pairs));
    PrivsOfAppend(json, queue, pairs);
  }

  lemma ConsumeTakesFirst(json: Codec, v: DM.Vault, saveOk: bool)
    requires json.Lawful()
    ensures
      var (v', key) := ConsumeStep(json, v, saveOk);
      if key.Some? then Queued(json, v) == [key.value] + Queued(json, v') else v' == v
  {
    var queue := OpenQueue(json, v);
    if queue != [] {
      DecodeEncode(json, queue[1..]);
    }
  }

  lemma PublishStepKeeps(json: Codec, before: seq<Bytes>, l: Ledger, e: Event)
    requires json.Lawful() && e.Publish? && Conserved(json, before, l) && Tracked(json, l)
    ensures Conserved(json, before, Step(json, l, e)) && Tracked(json, Step(json, l, e))
  {
    if e.count > 0 && l.vault.session.Some? {
      PublishAppends(json, l.vault, e.count, e.pairs, e.saveOk);
      PrivsConcat(l.pairs, e.pairs);
      AppendBoth(before, Privs(l.pairs), l.consumed, Queued(json, l.vault), Privs(e.pairs));
      DecodeEncode(json, OpenQueue(json, l.vault) + Entries(json, e.pairs));
      if e.pairs == [] {
        assert Queued(json, Step(json, l, e).vault) == Queued(json, l.vault);
      }
    }
  }

  lemma ConsumeStepKeeps(json: Codec, before: seq<Bytes>, l: Ledger, e: Event)
    requires json.Lawful() && e.Consume? && Conserved(json, before, l) && Tracked(json, l)
    ensures Conserved(json, before, Step(json, l, e)) && Tracked(json, Step(json, l, e))
  {
    ConsumeTakesFirst(json, l.vault, e.saveOk);
    var (v', key) := ConsumeStep(json, l.vault, e.saveOk);
    if key.Some? {
      Associative(l.consumed, [key.value], Queued(json, v'));
      DecodeEncode(json, OpenQueue(json, l.vault)[1..]);
    }
  }

  lemma OtherEditKeepsQueue(json: Codec, v: DM.Vault, op: DM.Op)
    requires (op.Store? || op.Remove?) && op.name != QUEUE_NAME
    ensures
      var v' := DM.Step(v, op).0;
      && Queued(json, v') == Queued(json, v)
      && (if DM.Wrote(v, op) then Settled(json, v') else Queued(json, DM.LockStep(v')) == Queued(json, DM.LockStep(v)))
  {
    if v.session.Some? && op.Remove? && op.name in v.session.value.secrets {
      var less := v.session.value.secrets - {op.name};
      assert QUEUE_NAME in less <==> QUEUE_NAME in v.session.value.secrets;
    }
  }

  lemma DoorKeepsQueue(json: Codec, v: DM.Vault, op: DM.Op)
    requires (op.Lock? || op.Unlock?) && Settled(json, v)
    ensures Queued(json, DM.Step(v, op).0) == Queued(json, v) && Settled(json, DM.Step(v, op).0)
  {
  }

  lemma StepKeeps(json: Codec, before: seq<Bytes>, l: Ledger, e: Event)
    requires json.Lawful() && Conserved(json, before, l) && Tracked(json, l) && Careful(json, l, e)
    ensures Conserved(json, before, Step(json, l, e)) && Tracked(json, Step(json, l, e))
  {
    match e
    case Publish(_, _, _) => PublishStepKeeps(json, before, l, e);
    case Consume(_) => ConsumeStepKeeps(json, before, l, e);
    case Other(op) =>
      if op.Lock? || op.Unlock? {
        DoorKeepsQueue(json, l.vault, op);
      } else {
        OtherEditKeepsQueue(json, l.vault, op);
      }
  }

  /** One-time keys are conserved and first in, first out: at every moment of any careful run,
      across locks and unlocks and whatever fails, the keys that were queued at the start followed
      by all keys generated are the keys handed out followed by the keys still queued, in order. */
  lemma KeysConserved(json: Codec, v: DM.Vault, events: seq<Event>, i: nat)
    requires json.Lawful() && i <= |events|
    requires Runs.Guarded(Next(json), Care(json), Start(json, v), events)
    ensures Conserved(json, Queued(json, v), Runs.At(Next(json), Start(json, v), events, i))
    ensures Tracked(json, Runs.At(Next(json), Start(json, v), events, i))
  {
    var inv := (l: Ledger) => Conserved(json, Queued(json, v), l) && Tracked(json, l);
    forall l, e | inv(l) && Care(json)(l, e)
      ensures inv(Next(json)(l, e))
    {
      StepKeeps(json, Queued(json, v), l, e);
    }
    Runs.Invariant(Next(json), Care(json), inv, Start(json, v), events, i);
  }

  // ---- public and private halves ----

  /** A publish over an open vault answers the public keys, in order, of the pairs that could be
      generated; it answers nothing for a count that is not positive or over a locked vault. */
  lemma PublishAnswers(json: Codec, v: DM.Vault, count: int, pairs: seq<Pair>, saveOk: bool)
    ensures
      var created := PublishStep(json, v, count, pairs, saveOk).1;
      && |created| == (if count > 0 && v.session.Some? then |pairs| else 0)
      && forall i :: 0 <= i < |created| ==> created[i] == pairs[i].pub
  {
  }

  /** A queue entry is the bytes of an object with both halves in base64url, and the queue is the
      array of its entries, under its own name in the vault. */
  lemma QueueLayout(json: Codec, v: DM.Vault, count: int, pairs: seq<Pair>, saveOk: bool, i: nat)
    requires json.Lawful() && count > 0 && v.session.Some? && i < |pairs|
    ensures
      var v' := PublishStep(json, v, count, pairs, saveOk).0;
      var secret := DM.Load(v', Ascii("one_time_prekeys"));
      && secret.Some? && var doc := json.parse(secret.value);
         && doc.Array? && |doc.items| == |OpenQueue(json, v)| + |pairs|
         && var entry := doc.items[|OpenQueue(json, v)| + i];
            && entry.String?
            && json.parse(Base64.Decode(Base64.UrlNoPadding, entry.text))
               == Object(map[Ascii("pub") := String(Base64.Encode(Base64.UrlNoPadding, pairs[i].pub)),
                             Ascii("priv") := String(Base64.Encode(Base64.UrlNoPadding, pairs[i].priv))])
  {
    var queue := OpenQueue(json, v) + Entries(json, pairs);
    var n := |OpenQueue(json, v)| + i;
    assert |Ascii("one_time_prekeys")| == 16;
    assert queue[n] == EntryOf(json, pairs[i]);
    DecodeEncode(json, queue);
    FromToB64(queue[n]);
    var entry := Object(map[PUB := String(ToB64(pairs[i].pub)), PRIV := String(ToB64(pairs[i].priv))]);
    assert json.parse(json.render(entry)) == entry;
    assert json.parse(json.render(ListDoc(queue))) == ListDoc(queue);
  }

  /** What was answered for publication is the public half of what was generated. */
  predicate PublishedHalves(l: Ledger) {
    |l.published| == |l.pairs| && forall j :: 0 <= j < |l.pairs| ==> l.published[j] == l.pairs[j].pub
  }

  lemma StepKeepsHalves(json: Codec, l: Ledger, e: Event)
    requires PublishedHalves(l)
    ensures PublishedHalves(Step(json, l, e))
  {
    if e.Publish? {
      PublishAnswers(json, l.vault, e.count, e.pairs, e.saveOk);
    }
  }

  /** In any careful run the keys handed out are first those queued at the start and then, one for
      one and in order, the private halves of the public keys answered for publication. */
  lemma HandedOutWasPublished(json: Codec, v: DM.Vault, events: seq<Event>, i: nat, j: nat)
    requires json.Lawful() && i <= |events|
    requires Runs.Guarded(Next(json), Care(json), Start(json, v), events)
    requires j < |Runs.At(Next(json), Start(json, v), events, i).consumed|
    ensures
      var l, before := Runs.At(Next(json), Start(json, v), events, i), Queued(json, v);
      if j < |before| then l.consumed[j] == before[j]
      else
        var k := j - |before|;
        k < |l.pairs| == |l.published| && l.consumed[j] == l.pairs[k].priv && l.published[k] == l.pairs[k].pub
  {
    KeysConserved(json, v, events, i);
    var always := (l: Ledger, e: Event) => true;
    forall l, e | PublishedHalves(l) && always(l, e)
      ensures PublishedHalves(Next(json)(l, e))
    {
      StepKeepsHalves(json, l, e);
    }
    Runs.Invariant(Next(json), always, PublishedHalves, Start(json, v), events, i);
    var l, before := Runs.At(Next(json), Start(json, v), events, i), Queued(json, v);
    assert (before + Privs(l.pairs))[j] == (l.consumed + Queued(json, l.vault))[j];
  }

  // ---- when saves succeed ----

  /** Every save succeeds and nobody else writes the queue's secret. */
  predicate Saving(e: Event) {
    && HandsOff(e)
    && match e
       case Publish(_, _, saveOk) => saveOk
       case Consume(saveOk) => saveOk
       case Other(op) => DM.Healthy(op)
  }

  /** The vault was saved under this password, and its memory is what was saved. */
  predicate InStep(password: Bytes, v: DM.Vault) {
    && v.saved.Some? && v.saved.value.password == password
    && (v.session.Some? ==> v.session.value == DM.Session(password, true, v.saved.value.secrets))
  }

  lemma SavingStep(json: Codec, password: Bytes, l: Ledger, e: Event)
    requires json.Lawful() && Saving(e)
    requires InStep(password, l.vault) && !l.unsaved
    ensures Careful(json, l, e)
    ensures InStep(password, Step(json, l, e).vault) && !Step(json, l, e).unsaved
  {
  }

  /** When saves succeed, nothing more is needed: in every run from a vault whose memory is saved,
      keys are conserved across any locks and any unlocks, with wrong passwords too. */
  lemma SavedKeysConserved(json: Codec, password: Bytes, v: DM.Vault, events: seq<Event>, i: nat)
    requires json.Lawful() && InStep(password, v) && i <= |events|
    requires forall k :: 0 <= k < |events| ==> Saving(events[k])
    ensures Runs.Guarded(Next(json), Care(json), Start(json, v), events)
    ensures Conserved(json, Queued(json, v), Runs.At(Next(json), Start(json, v), events, i))
  {
    var inv := (k: int, l: Ledger) => InStep(password, l.vault) && !l.unsaved;
    forall k, l | 0 <= k < |events| && inv(k, l)
      ensures inv(k + 1, Next(json)(l, events[k]))
    {
      SavingStep(json, password, l, events[k]);
    }
    forall k | 0 <= k < |events|
      ensures Care(json)(Runs.At(Next(json), Start(json, v), events, k), events[k])
    {
      Runs.IndexedInvariant(Next(json), inv, Start(json, v), events, k);
      SavingStep(json, password, Runs.At(Next(json), Start(json, v), events, k), events[k]);
    }
    KeysConserved(json, v, events, i);
  }

  // ---- when they do not ----

  /** The event is no lock or unlock, and the file is not written by it. */
  predicate Unwritten(e: Event) {
    match e
    case Publish(_, _, saveOk) => !saveOk
    case Consume(saveOk) => !saveOk
    case Other(op) => (op.Store? || op.Remove?) && !op.saveOk
  }

  lemma UnwrittenStep(json: Codec, password: Bytes, saved: Option<DM.Saved>, l: Ledger, e: Event)
    requires Unwritten(e)
    requires l.vault.saved == saved && l.vault.session.Some? && l.vault.session.value.password == password
    ensures
      var v' := Step(json, l, e).vault;
      v'.saved == saved && v'.session.Some? && v'.session.value.password == password
  {
  }

  /** Locking and unlocking after a stretch of failed saves takes the vault back to where the
      stretch began. So the keys handed out in it are handed out again and those generated in it
      are lost, and the balance holds afterwards exactly when the queue would have come out the
      same without the stretch. */
  lemma UnsavedStretchForgotten(json: Codec, password: Bytes, v: DM.Vault, events: seq<Event>)
    requires json.Lawful() && password != [] && InStep(password, v) && v.session.Some?
    requires forall k :: 0 <= k < |events| ==> Unwritten(events[k])
    ensures
      var before := Queued(json, v);
      var l := Runs.Run(Next(json), Start(json, v), events);
      var reopened := l.(vault := DM.UnlockStep(DM.LockStep(l.vault), password, DM.GOOD).0);
      && reopened.vault == v
      && (Conserved(json, before, reopened) <==> before + Privs(l.pairs) == l.consumed + before)
  {
    var inv := (k: int, l: Ledger) =>
      l.vault.saved == v.saved && l.vault.session.Some? && l.vault.session.value.password == password;
    forall k, l | 0 <= k < |events| && inv(k, l)
      ensures inv(k + 1, Next(json)(l, events[k]))
    {
      UnwrittenStep(json, password, v.saved, l, events[k]);
    }
    Runs.IndexedInvariant(Next(json), inv, Start(json, v), events, |events|);
    Runs.AtEnds(Next(json), Start(json, v), events);
  }

  /** In particular a consume whose save failed returns the same key again after the vault is
      reopened. */
  lemma UnsavedConsumeRepeats(json: Codec, v: DM.Vault)
    requires json.Lawful() && v.session.Some? && v.session.value.password != [] && OpenQueue(json, v) != []
    requires v.saved == Some(DM.Saved(v.session.value.password, v.session.value.secrets))
    ensures
      var (v1, first) := ConsumeStep(json, v, false);
      var v2 := DM.UnlockStep(DM.LockStep(v1), v.session.value.password, DM.GOOD).0;
      first.Some? && ConsumeStep(json, v2, true).1 == first
  {
  }

  /** A consume from a settled queue leaves it settled exactly when its save works. */
  lemma ConsumeSettlesIff(json: Codec, v: DM.Vault, saveOk: bool)
    requires json.Lawful() && v.session.Some? && v.session.value.sealable && OpenQueue(json, v) != []
    requires Settled(json, v)
    ensures Settled(json, ConsumeStep(json, v, saveOk).0) <==> saveOk
  {
    var queue := OpenQueue(json, v);
    DecodeEncode(json, queue[1..]);
    assert |Queued(json, ConsumeStep(json, v, saveOk).0)| == |queue| - 1;
  }
}
