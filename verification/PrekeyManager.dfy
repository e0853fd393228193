/** The prekey manager object, on top of a vault object. */
module Prekeys {
  import opened ByteStrings
  import opened Primitives
  import opened JsonDocs
  import opened PrekeyQueue
  import opened Vaults
  import DM = DurableMap

  method EncodeOneTimeQueue(json: Codec, keys: seq<Bytes>) returns (encoded: Bytes)
    ensures encoded == EncodeQueue(json, keys)
  {
    var items: seq<Json> := [];
    for i := 0 to |keys|
      invariant items == ListDoc(keys).items[..i]
    {
      items := items + [String(ToB64(keys[i]))];
    }
    assert items == ListDoc(keys).items;
    encoded := json.render(Array(items));
  }

  method DecodeOneTimeQueue(json: Codec, encoded: Bytes) returns (out: seq<Bytes>)
    ensures out == DecodeQueue(json, encoded)
  {
    out := [];
    if encoded == [] {
      return;
    }
    var doc := json.parse(encoded);
    var items := if doc.Array? then doc.items else [];
    for i := 0 to |items|
      invariant out == ListOf(doc)[..i]
    {
      out := out + [FromB64(StringOf(items[i]))];
    }
  }

  /** The key pairs generated before the first failure; keypair(i) is the outcome of the i-th
      key generation. */
  function Generated(keypair: nat -> Option<Pair>, count: nat): (pairs: seq<Pair>)
    ensures |pairs| <= count
    ensures forall i :: 0 <= i < |pairs| ==> keypair(i) == Some(pairs[i])
    ensures |pairs| < count ==> keypair(|pairs|) == None
  {
    if count == 0 then []
    else
      var before := Generated(keypair, count - 1);
      if |before| == count - 1 && keypair(count - 1).Some? then before + [keypair(count - 1).value] else before
  }

  lemma {:induction false} GeneratedStops(keypair: nat -> Option<Pair>, i: nat, count: nat)
    requires i < count && |Generated(keypair, i)| == i && keypair(i) == None
    ensures Generated(keypair, count) == Generated(keypair, i)
  {
    if i + 1 < count {
      GeneratedStops(keypair, i, count - 1);
    }
  }

  method Generate(json: Codec, before: seq<Bytes>, count: nat, keypair: nat -> Option<Pair>)
    returns (queue: seq<Bytes>, created: seq<Bytes>)
    ensures
      var pairs := Generated(keypair, count);
      && queue == before + Entries(json, pairs)
      && created == seq(|pairs|, k requires 0 <= k < |pairs| => pairs[k].pub)
  {
    queue, created := before, [];
    for i := 0 to count
      invariant |Generated(keypair, i)| == i
      invariant queue == before + Entries(json, Generated(keypair, i))
      invariant created == seq(i, k requires 0 <= k < i => Generated(keypair, i)[k].pub)
    {
      var pair := keypair(i);
      if pair.None? {
        GeneratedStops(keypair, i, count);
        break;
      }
      assert Entries(json, Generated(keypair, i + 1))
          == Entries(json, Generated(keypair, i)) + [EntryOf(json, pair.value)];
      var item := Object(map[PUB := String(ToB64(pair.value.pub)), PRIV := String(ToB64(pair.value.priv))]);
      queue := queue + [json.render(item)];
      created := created + [pair.value.pub];
    }
  }

  class PrekeyManager {
    const vault: VaultService

    constructor (vault: VaultService)
      ensures this.vault == vault
    {
      this.vault := vault;
    }

    method PublishOneTimePrekeys(count: int, keypair: nat -> Option<Pair>, nonceDraw: Bytes, commitOk: bool)
      returns (created: seq<Bytes>)
      requires vault.Valid()
      requires nonceDraw == [] || |nonceDraw| == XNONCE_BYTES
      modifies vault
      ensures vault.Valid()
      ensures (vault.Abstract(), created) ==
              PublishStep(vault.json, old(vault.Abstract()), count,
                          Generated(keypair, if count < 0 then 0 else count), nonceDraw != [] && commitOk)
    {
      created := [];
      if count <= 0 || !vault.unlocked {
        return;
      }
      var stored := vault.LoadSecret(QUEUE_NAME);
      var queue := DecodeOneTimeQueue(vault.json, if stored.Some? then stored.value else []);
      queue, created := Generate(vault.json, queue, count, keypair);
      var encoded := EncodeOneTimeQueue(vault.json, queue);
      var _ := vault.StoreSecret(QUEUE_NAME, encoded, nonceDraw, commitOk);
    }

    method ConsumeOneTimePrekey(nonceDraw: Bytes, commitOk: bool) returns (key: Option<Bytes>)
      requires vault.Valid()
      requires nonceDraw == [] || |nonceDraw| == XNONCE_BYTES
      modifies vault
      ensures vault.Valid()
      ensures (vault.Abstract(), key) ==
              ConsumeStep(vault.json, old(vault.Abstract()), nonceDraw != [] && commitOk)
    {
      var stored := vault.LoadSecret(QUEUE_NAME);
      var queue := DecodeOneTimeQueue(vault.json, if stored.Some? then stored.value else []);
      if queue == [] {
        return None;
      }
      var entry := queue[0];
      queue := queue[1..];
      var encoded := EncodeOneTimeQueue(vault.json, queue);
      var _ := vault.StoreSecret(QUEUE_NAME, encoded, nonceDraw, commitOk);
      var obj := vault.json.parse(entry);
      key := Some(FromB64(Field(obj, PRIV)));
    }
  }
}
