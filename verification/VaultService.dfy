/** The vault object: a sealed file and its decrypted copy, against the durable map it offers. */
module Vaults {
  import opened ByteStrings
  import opened Primitives
  import opened JsonDocs
  import Base64
  import DM = DurableMap

  const VAULT_AD: Bytes := Ascii("vox-vault-v1")

  const VERSION: Text := Ascii("version")
  const SALT: Text := Ascii("salt")
  const NONCE: Text := Ascii("nonce")
  const CIPHERTEXT: Text := Ascii("ciphertext")

  function FileDoc(salt: Bytes, nonce: Bytes, ciphertext: Bytes): Json {
    Object(map[VERSION := Number(1),
               SALT := String(ToB64(salt)),
               NONCE := String(ToB64(nonce)),
               CIPHERTEXT := String(ToB64(ciphertext))])
  }

  lemma FileDocFields(salt: Bytes, nonce: Bytes, ciphertext: Bytes)
    ensures
      var doc := FileDoc(salt, nonce, ciphertext);
      && FromB64(Field(doc, SALT)) == salt
      && FromB64(Field(doc, NONCE)) == nonce
      && FromB64(Field(doc, CIPHERTEXT)) == ciphertext
  {
    assert |VERSION| == 7 && |SALT| == 4 && |NONCE| == 5 && |CIPHERTEXT| == 10;
    FromToB64(salt);
    FromToB64(nonce);
    FromToB64(ciphertext);
  }

  /** `argon2idKdf`, which may run out of memory. */
  function Argon2id(c: Suite, password: Bytes, salt: Bytes, ok: bool): (key: Bytes)
    ensures |key| == 0 || |key| == KEY_BYTES
  {
    if !ok || |salt| != SALT_BYTES || password == [] then [] else c.stretch(password, salt)
  }

  /** The box in the file that holds these secrets under this password. */
  function Sealed(c: Suite, json: Codec, salt: Bytes, nonce: Bytes, saved: DM.Saved): Bytes {
    AeadEncrypt(c, XNONCE_BYTES, c.stretch(saved.password, salt), nonce, json.render(MapDoc(saved.secrets)), VAULT_AD)
  }

  /** One password against one file: it is the file's password, or the box does not open under the
      key it gives. (No suite can promise this of all passwords and files: keys and tags are
      short.) */
  predicate ToldApart(c: Suite, json: Codec, salt: Bytes, nonce: Bytes, saved: DM.Saved, password: Bytes) {
    password != saved.password ==>
      c.unseal(c.stretch(password, salt), nonce, Sealed(c, json, salt, nonce, saved), VAULT_AD) == None
  }

  function Stretched(password: Bytes): (k: Bytes)
    ensures |k| == KEY_BYTES && k[0] == if password == [1] then 1 else 0
  {
    [if password == [1] then 1 else 0] + Zeros(31)
  }

  ghost predicate AlwaysToldApart(c: Suite, saved: Bytes, tried: Bytes) {
    forall json, salt, nonce, secrets :: ToldApart(c, json, salt, nonce, DM.Saved(saved, secrets), tried)
  }

  /** With some primitives two passwords are told apart whatever the files under them hold. */
  lemma SeparationIsPossible()
    ensures exists c: Suite :: AlwaysToldApart(c, [1], [2]) && AlwaysToldApart(c, [2], [1])
  {
    var f := Functions((k, d) => Zeros(32), (k, n, p, ad) => TaggedSeal(k, p),
                       (k, n, ct, ad) => TaggedUnseal(k, ct), (pw, salt) => Stretched(pw));
    forall k, p
      ensures TaggedUnseal(k, TaggedSeal(k, p)) == Some(p)
    {
      TaggedRoundTrip(k, p);
    }
    assert f.Lawful();
    var c: Suite := f;
    forall json, salt, nonce, secrets
      ensures ToldApart(c, json, salt, nonce, DM.Saved([1], secrets), [2])
      ensures ToldApart(c, json, salt, nonce, DM.Saved([2], secrets), [1])
    {
      var payload := json.render(MapDoc(secrets));
      TaggedRejects(Stretched([1]), Stretched([2]), payload);
      TaggedRejects(Stretched([2]), Stretched([1]), payload);
    }
    assert AlwaysToldApart(c, [1], [2]) && AlwaysToldApart(c, [2], [1]);
  }

  /** The file that holds these secrets under this password. */
  predicate Holds(c: Suite, json: Codec, file: Bytes, salt: Bytes, nonce: Bytes, saved: DM.Saved) {
    && |salt| == SALT_BYTES && |nonce| == XNONCE_BYTES && saved.password != []
    && file == json.render(FileDoc(salt, nonce, Sealed(c, json, salt, nonce, saved)))
  }

  lemma FieldNames()
    ensures VERSION == Ascii("version") && SALT == Ascii("salt") && NONCE == Ascii("nonce")
    ensures CIPHERTEXT == Ascii("ciphertext")
    ensures VERSION != SALT && VERSION != NONCE && VERSION != CIPHERTEXT
    ensures SALT != NONCE && SALT != CIPHERTEXT && NONCE != CIPHERTEXT
  {
    assert |VERSION| == 7 && |SALT| == 4 && |NONCE| == 5 && |CIPHERTEXT| == 10;
  }

  /** The object of base64url secrets that is sealed. */
  function SecretsObject(secrets: map<Text, Bytes>): Json {
    Object(map k | k in secrets :: String(Base64.Encode(Base64.UrlNoPadding, secrets[k])))
  }

  lemma BoxBytes(c: Suite, json: Codec, salt: Bytes, nonce: Bytes, saved: DM.Saved)
    requires |nonce| == 24
    ensures Sealed(c, json, salt, nonce, saved)
         == c.seal(c.stretch(saved.password, salt), nonce, json.render(SecretsObject(saved.secrets)),
                   Ascii("vox-vault-v1"))
  {
    assert MapDoc(saved.secrets) == SecretsObject(saved.secrets);
  }

  lemma DocLayout(salt: Bytes, nonce: Bytes, box: Bytes)
    ensures
      var doc := FileDoc(salt, nonce, box);
      && doc.fields.Keys == {Ascii("version"), Ascii("salt"), Ascii("nonce"), Ascii("ciphertext")}
      && doc.fields[Ascii("version")] == Number(1)
      && doc.fields[Ascii("salt")] == String(Base64.Encode(Base64.UrlNoPadding, salt))
      && doc.fields[Ascii("nonce")] == String(Base64.Encode(Base64.UrlNoPadding, nonce))
      && doc.fields[Ascii("ciphertext")] == String(Base64.Encode(Base64.UrlNoPadding, box))
  {
    FieldNames();
  }

  /** The file by its own fields: version 1, and unpadded base64url of the salt, the nonce, and the
      box that seals the secrets under the stretched password. */
  lemma FileLayout(c: Suite, json: Codec, file: Bytes, salt: Bytes, nonce: Bytes, saved: DM.Saved)
    requires json.Lawful() && Holds(c, json, file, salt, nonce, saved)
    ensures |salt| == 16 && |nonce| == 24
    ensures
      var doc := json.parse(file);
      var box := c.seal(c.stretch(saved.password, salt), nonce, json.render(SecretsObject(saved.secrets)),
                        Ascii("vox-vault-v1"));
      && doc.Object?
      && doc.fields.Keys == {Ascii("version"), Ascii("salt"), Ascii("nonce"), Ascii("ciphertext")}
      && doc.fields[Ascii("version")] == Number(1)
      && doc.fields[Ascii("salt")] == String(Base64.Encode(Base64.UrlNoPadding, salt))
      && doc.fields[Ascii("nonce")] == String(Base64.Encode(Base64.UrlNoPadding, nonce))
      && doc.fields[Ascii("ciphertext")] == String(Base64.Encode(Base64.UrlNoPadding, box))
  {
    BoxBytes(c, json, salt, nonce, saved);
    var box := Sealed(c, json, salt, nonce, saved);
    DocLayout(salt, nonce, box);
    var doc := FileDoc(salt, nonce, box);
    assert json.parse(json.render(doc)) == doc;
  }

  /** Opening such a file with the right password finds the secrets, with a wrong one nothing. */
  lemma OpenFile(c: Suite, json: Codec, file: Bytes, salt: Bytes, nonce: Bytes, saved: DM.Saved, password: Bytes)
    requires json.Lawful() && password != []
    requires Holds(c, json, file, salt, nonce, saved) && ToldApart(c, json, salt, nonce, saved, password)
    ensures
      var doc := json.parse(file);
      && FromB64(Field(doc, SALT)) == salt
      && var clear := AeadDecrypt(c, XNONCE_BYTES, c.stretch(password, salt), FromB64(Field(doc, NONCE)),
                                   FromB64(Field(doc, CIPHERTEXT)), VAULT_AD);
         if password == saved.password then clear.Some? && MapOf(json.parse(clear.value)) == saved.secrets
         else clear == None
  {
    var key := c.stretch(saved.password, salt);
    var payload := json.render(MapDoc(saved.secrets));
    FileDocFields(salt, nonce, Sealed(c, json, salt, nonce, saved));
    AeadRoundTrip(c, XNONCE_BYTES, key, nonce, payload, VAULT_AD);
    MapRoundTrip(saved.secrets);
  }

  method PayloadDoc(secrets: map<Text, Bytes>) returns (doc: Json)
    ensures doc == MapDoc(secrets)
  {
    var fields: map<Text, Json> := map[];
    var rest := secrets.Keys;
    while rest != {}
      invariant rest <= secrets.Keys
      invariant fields == map k | k in secrets && k !in rest :: String(ToB64(secrets[k]))
    {
      var k :| k in rest;
      fields := fields[k := String(ToB64(secrets[k]))];
      rest := rest - {k};
    }
    doc := Object(fields);
  }

  method LoadSecrets(doc: Json) returns (secrets: map<Text, Bytes>)
    ensures secrets == MapOf(doc)
  {
    secrets := map[];
    var fields: map<Text, Json> := if doc.Object? then doc.fields else map[];
    var rest := fields.Keys;
    while rest != {}
      invariant rest <= fields.Keys
      invariant secrets == map k | k in fields && k !in rest :: FromB64(StringOf(fields[k]))
    {
      var k :| k in rest;
      secrets := secrets[k := FromB64(StringOf(fields[k]))];
      rest := rest - {k};
    }
  }

  class VaultService {
    const c: Suite
    const json: Codec
    var vaultKey: Bytes
    var salt: Bytes
    var secrets: map<Text, Bytes>
    var unlocked: bool
    var disk: Option<Bytes>

    // The password the current key comes from, and what the file holds.
    ghost var password: Bytes
    ghost var saved: Option<DM.Saved>
    ghost var savedSalt: Bytes
    ghost var savedNonce: Bytes

    predicate CanSeal()
      reads this
    {
      |vaultKey| == KEY_BYTES && |salt| == SALT_BYTES
    }

    ghost predicate Valid()
      reads this
    {
      && json.Lawful()
      && (!unlocked ==> vaultKey == [] && secrets == map[])
      && (|vaultKey| == 0 || |vaultKey| == KEY_BYTES)
      && (unlocked && CanSeal() ==> password != [] && vaultKey == c.stretch(password, salt))
      && (disk.Some? <==> saved.Some?)
      && (saved.Some? ==> Holds(c, json, disk.value, savedSalt, savedNonce, saved.value))
    }

    /** The password is the file's, or the file does not open under it. */
    ghost predicate Told(password: Bytes)
      reads this
    {
      saved.Some? ==> ToldApart(c, json, savedSalt, savedNonce, saved.value, password)
    }

    /** The durable map this object stands for. */
    ghost function Abstract(): DM.Vault
      reads this
    {
      DM.Vault(if unlocked then Some(DM.Session(password, CanSeal(), secrets)) else None, saved)
    }

    /** A vault without a file. */
    constructor (c: Suite, json: Codec)
      requires json.Lawful()
      ensures Valid() && this.c == c && this.json == json
      ensures Abstract() == DM.Vault(None, None)
    {
      this.c, this.json := c, json;
      vaultKey, salt, secrets, unlocked, disk := [], [], map[], false, None;
      saved := None;
    }

    /** saltDraw and nonceDraw are what the random source returns: the size asked for or nothing. */
    method UnlockWithPassword(password: Bytes, readOk: bool, saltDraw: Bytes, kdfOk: bool,
                              nonceDraw: Bytes, commitOk: bool)
      returns (ok: bool)
      requires Valid() && Told(password)
      requires (saltDraw == [] || |saltDraw| == SALT_BYTES) && (nonceDraw == [] || |nonceDraw| == XNONCE_BYTES)
      modifies this
      ensures Valid()
      ensures (Abstract(), ok) == DM.UnlockStep(old(Abstract()), password,
                                    DM.Luck(readOk, saltDraw != [], kdfOk, nonceDraw != [] && commitOk))
    {
      if password == [] {
        return false;
      }
      if disk.Some? {
        ok := LoadExistingVault(password, readOk, kdfOk);
        return;
      }
      salt := saltDraw;
      if salt == [] {
        return false;
      }
      vaultKey := Argon2id(c, password, salt, kdfOk);
      if |vaultKey| != KEY_BYTES {
        return false;
      }
      unlocked := true;
      this.password := password;
      ok := SaveVault(nonceDraw, commitOk);
    }

    method LoadExistingVault(password: Bytes, readOk: bool, kdfOk: bool) returns (ok: bool)
      requires Valid() && Told(password) && password != [] && disk.Some?
      modifies this
      ensures Valid()
      ensures (Abstract(), ok) ==
              DM.UnlockStep(old(Abstract()), password, DM.Luck(readOk, true, kdfOk, true))
    {
      if !readOk {
        return false;
      }
      var root := json.parse(disk.value);
      OpenFile(c, json, disk.value, savedSalt, savedNonce, saved.value, password);
      salt := FromB64(Field(root, SALT));
      var nonce := FromB64(Field(root, NONCE));
      var ciphertext := FromB64(Field(root, CIPHERTEXT));
      vaultKey := Argon2id(c, password, salt, kdfOk);
      if |vaultKey| != KEY_BYTES {
        return false;
      }
      var decrypted := AeadDecrypt(c, XNONCE_BYTES, vaultKey, nonce, ciphertext, VAULT_AD);
      if decrypted.None? {
        LockVault();
        return false;
      }
      secrets := LoadSecrets(json.parse(decrypted.value));
      unlocked := true;
      this.password := password;
      ok := true;
    }

    method LockVault()
      modifies this
      ensures vaultKey == [] && secrets == map[] && !unlocked
      ensures disk == old(disk) && saved == old(saved) && savedSalt == old(savedSalt) && savedNonce == old(savedNonce)
      ensures old(Valid()) ==> Valid()
      ensures Abstract() == DM.LockStep(old(Abstract()))
    {
      vaultKey := [];
      secrets := map[];
      unlocked := false;
    }

    method SaveVault(nonceDraw: Bytes, commitOk: bool) returns (ok: bool)
      requires Valid()
      requires nonceDraw == [] || |nonceDraw| == XNONCE_BYTES
      modifies this`disk, this`saved, this`savedSalt, this`savedNonce
      ensures Valid()
      ensures (Abstract(), ok) == DM.SaveStep(old(Abstract()), nonceDraw != [] && commitOk)
    {
      if !unlocked || !CanSeal() {
        return false;
      }
      var doc := PayloadDoc(secrets);
      var payload := json.render(doc);
      if |nonceDraw| != XNONCE_BYTES {
        return false;
      }
      var ciphertext := AeadEncrypt(c, XNONCE_BYTES, vaultKey, nonceDraw, payload, VAULT_AD);
      if !commitOk {
        return false;
      }
      disk := Some(json.render(FileDoc(salt, nonceDraw, ciphertext)));
      saved, savedSalt, savedNonce := Some(DM.Saved(password, secrets)), salt, nonceDraw;
      ok := true;
    }

    method StoreSecret(name: Text, value: Bytes, nonceDraw: Bytes, commitOk: bool) returns (ok: bool)
      requires Valid()
      requires nonceDraw == [] || |nonceDraw| == XNONCE_BYTES
      modifies this
      ensures Valid()
      ensures (Abstract(), ok) == DM.StoreStep(old(Abstract()), name, value, nonceDraw != [] && commitOk)
    {
      if !unlocked || name == [] || value == [] {
        return false;
      }
      secrets := secrets[name := value];
      ok := SaveVault(nonceDraw, commitOk);
    }

    method LoadSecret(name: Text) returns (value: Option<Bytes>)
      requires Valid()
      ensures value == DM.Load(Abstract(), name)
    {
      if !unlocked || name == [] || name !in secrets {
        return None;
      }
      value := Some(secrets[name]);
    }

    method RemoveSecret(name: Text, nonceDraw: Bytes, commitOk: bool) returns (ok: bool)
      requires Valid()
      requires nonceDraw == [] || |nonceDraw| == XNONCE_BYTES
      modifies this
      ensures Valid()
      ensures (Abstract(), ok) == DM.RemoveStep(old(Abstract()), name, nonceDraw != [] && commitOk)
    {
      if !unlocked || name == [] {
        return false;
      }
      if name !in secrets {
        return true;
      }
      secrets := secrets - {name};
      ok := SaveVault(nonceDraw, commitOk);
    }
  }
}
