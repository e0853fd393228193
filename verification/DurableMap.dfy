/** The vault as its users see it: a map in memory while it is open, and the copy last saved. */
module DurableMap {
  import opened ByteStrings
  import Runs

  type Secrets = map<Text, Bytes>

  /** An open vault: the password its key comes from, whether key and salt are fit for saving,
      and the secrets in memory. */
  datatype Session = Session(password: Bytes, sealable: bool, secrets: Secrets)

  datatype Saved = Saved(password: Bytes, secrets: Secrets)

  datatype Vault = Vault(session: Option<Session>, saved: Option<Saved>)

  /** How the outside world behaves during an unlock: the file can be read, a salt can be
      drawn, the key can be derived, a save (nonce, file, commit) works. */
  datatype Luck = Luck(readOk: bool, saltOk: bool, kdfOk: bool, saveOk: bool)

  const GOOD := Luck(true, true, true, true)

  datatype Op =
    | Unlock(password: Bytes, luck: Luck)
    | Lock
    | Store(name: Text, value: Bytes, saveOk: bool)
    | Remove(name: Text, saveOk: bool)

  function SaveStep(v: Vault, saveOk: bool): (Vault, bool) {
    if v.session.Some? && v.session.value.sealable && saveOk then
      (v.(saved := Some(Saved(v.session.value.password, v.session.value.secrets))), true)
    else (v, false)
  }

  /** A failed key derivation over an open vault leaves it open but no longer able to save. */
  function Unsealable(v: Vault): Vault {
    if v.session.Some? then v.(session := Some(v.session.value.(sealable := false))) else v
  }

  function UnlockStep(v: Vault, password: Bytes, luck: Luck): (Vault, bool) {
    if password == [] then (v, false)
    else if v.saved.Some? then
      if !luck.readOk then (v, false)
      else if !luck.kdfOk then (Unsealable(v), false)
      else if password != v.saved.value.password then (v.(session := None), false)
      else (v.(session := Some(Session(password, true, v.saved.value.secrets))), true)
    else if !luck.saltOk || !luck.kdfOk then (Unsealable(v), false)
    else
      var secrets := if v.session.Some? then v.session.value.secrets else map[];
      SaveStep(v.(session := Some(Session(password, true, secrets))), luck.saveOk)
  }

  function LockStep(v: Vault): Vault {
    v.(session := None)
  }

  function StoreStep(v: Vault, name: Text, value: Bytes, saveOk: bool): (Vault, bool) {
    if v.session.None? || name == [] || value == [] then (v, false)
    else
      var s := v.session.value;
      SaveStep(v.(session := Some(s.(secrets := s.secrets[name := value]))), saveOk)
  }

  function RemoveStep(v: Vault, name: Text, saveOk: bool): (Vault, bool) {
    if v.session.None? || name == [] then (v, false)
    else if name !in v.session.value.secrets then (v, true)
    else
      var s := v.session.value;
      SaveStep(v.(session := Some(s.(secrets := s.secrets - {name}))), saveOk)
  }

  function Load(v: Vault, name: Text): Option<Bytes> {
    if v.session.None? || name == [] || name !in v.session.value.secrets then None
    else Some(v.session.value.secrets[name])
  }

  function Step(v: Vault, op: Op): (Vault, bool) {
    match op
    case Unlock(password, luck) => UnlockStep(v, password, luck)
    case Lock => (LockStep(v), true)
    case Store(name, value, saveOk) => StoreStep(v, name, value, saveOk)
    case Remove(name, saveOk) => RemoveStep(v, name, saveOk)
  }

  function Next(): (Vault, Op) -> Vault {
    (v, op) => Step(v, op).0
  }

  // ---- the plain map it stands for ----

  /** A map that is never lost, behind a door with one password. */
  datatype Plain = Plain(password: Bytes, isOpen: bool, m: Secrets)

  /** The operations on the plain map, with their answers: the password opens the door, any other
      one shuts it, and an empty one is refused; an edit is refused behind a closed door, under an
      empty name or with an empty value. Keys and disks play no part. */
  function PlainStep(p: Plain, op: Op): (Plain, bool) {
    match op
    case Unlock(password, _) =>
      if password == [] then (p, false) else (p.(isOpen := password == p.password), password == p.password)
    case Lock => (p.(isOpen := false), true)
    case Store(name, value, _) =>
      if p.isOpen && name != [] && value != [] then (p.(m := p.m[name := value]), true) else (p, false)
    case Remove(name, _) =>
      if p.isOpen && name != [] then (p.(m := p.m - {name}), true) else (p, false)
  }

  function PlainNext(): (Plain, Op) -> Plain {
    (p, op) => PlainStep(p, op).0
  }

  /** Nothing in the outside world fails. Passwords may be wrong. */
  predicate Healthy(op: Op) {
    match op
    case Unlock(_, luck) => luck == GOOD
    case Lock => true
    case Store(_, _, saveOk) => saveOk
    case Remove(_, saveOk) => saveOk
  }

  /** The vault's saved copy is the plain map, and so is its memory when it is open. */
  predicate Agrees(p: Plain, v: Vault) {
    && v.saved == Some(Saved(p.password, p.m))
    && v.session == if p.isOpen then Some(Session(p.password, true, p.m)) else None
  }

  lemma HealthyStep(p: Plain, v: Vault, op: Op)
    requires Agrees(p, v) && Healthy(op)
    ensures Agrees(PlainStep(p, op).0, Step(v, op).0)
    ensures Step(v, op).1 == PlainStep(p, op).1
  {
    if op.Remove? && op.name !in p.m {
      assert p.m - {op.name} == p.m;
    }
  }

  /** The first unlock on a fresh device leaves an empty map, open and saved. */
  lemma FirstUnlock(password: Bytes)
    requires password != []
    ensures Agrees(Plain(password, true, map[]), UnlockStep(Vault(None, None), password, GOOD).0)
    ensures UnlockStep(Vault(None, None), password, GOOD).1
  {
  }

  /** The vault is a plain durable map: at every moment of any healthy run, across any number of
      locks and of unlocks with right and wrong passwords, its saved copy and its open memory are
      what the plain map holds, and every operation is answered alike. */
  lemma {:induction false} RefinesPlainMap(p: Plain, v: Vault, ops: seq<Op>, i: nat)
    requires Agrees(p, v) && i <= |ops|
    requires forall k :: 0 <= k < |ops| ==> Healthy(ops[k])
    ensures Agrees(Runs.At(PlainNext(), p, ops, i), Runs.At(Next(), v, ops, i))
    ensures i < |ops| ==>
              Step(Runs.At(Next(), v, ops, i), ops[i]).1 == PlainStep(Runs.At(PlainNext(), p, ops, i), ops[i]).1
  {
    if i > 0 {
      RefinesPlainMap(p, v, ops, i - 1);
      Runs.AtNext(Next(), v, ops, i - 1);
      Runs.AtNext(PlainNext(), p, ops, i - 1);
      HealthyStep(Runs.At(PlainNext(), p, ops, i - 1), Runs.At(Next(), v, ops, i - 1), ops[i - 1]);
    }
    if i < |ops| {
      HealthyStep(Runs.At(PlainNext(), p, ops, i), Runs.At(Next(), v, ops, i), ops[i]);
    }
  }

  // ---- what holds when things fail ----

  /** The operation wrote the file. */
  predicate Wrote(v: Vault, op: Op) {
    match op
    case Unlock(password, luck) => v.saved.None? && Step(v, op).1
    case Lock => false
    case Store(_, _, _) => Step(v, op).1
    case Remove(name, _) => Step(v, op).1 && Load(v, name).Some?
  }

  /** Index k is the last operation of the run, before operation n, that wrote the file. */
  predicate LastWrite(v: Vault, ops: seq<Op>, n: nat, k: nat) {
    && k < n <= |ops|
    && Wrote(Runs.At(Next(), v, ops, k), ops[k])
    && forall j :: k < j < n ==> !Wrote(Runs.At(Next(), v, ops, j), ops[j])
  }

  lemma WriteEffect(v: Vault, op: Op)
    ensures
      var v' := Step(v, op).0;
      if Wrote(v, op) then
        v'.session.Some? && v'.saved == Some(Saved(v'.session.value.password, v'.session.value.secrets))
      else v'.saved == v.saved
  {
  }

  /** In any run, whatever fails, the saved copy is the map in memory right after the last
      operation that wrote the file. */
  lemma {:induction false} SavedIsLastWritten(v: Vault, ops: seq<Op>, n: nat, k: nat)
    requires LastWrite(v, ops, n, k)
    ensures
      var after := Runs.At(Next(), v, ops, k + 1);
      && after.session.Some?
      && Runs.At(Next(), v, ops, n).saved == Some(Saved(after.session.value.password, after.session.value.secrets))
  {
    Runs.AtNext(Next(), v, ops, n - 1);
    WriteEffect(Runs.At(Next(), v, ops, n - 1), ops[n - 1]);
    if k < n - 1 {
      SavedIsLastWritten(v, ops, n - 1, k);
    }
  }

  /** Opening a saved vault restores exactly the saved map, for the password it was saved under
      and for no other; a wrong password closes it and costs nothing on disk. */
  lemma UnlockRestoresSaved(v: Vault, password: Bytes)
    requires v.saved.Some? && password != []
    ensures
      var (v', ok) := UnlockStep(v, password, GOOD);
      && v'.saved == v.saved
      && (ok <==> password == v.saved.value.password)
      && (ok ==> forall name :: name != [] ==>
            Load(v', name) == if name in v.saved.value.secrets then Some(v.saved.value.secrets[name]) else None)
      && (!ok ==> v'.session.None?)
  {
  }

  predicate HasPassword(v: Vault) {
    v.session.Some? ==> v.session.value.password != []
  }

  lemma PasswordsStay(v: Vault, ops: seq<Op>, i: nat)
    requires HasPassword(v) && i <= |ops|
    ensures HasPassword(Runs.At(Next(), v, ops, i))
  {
    Runs.Invariant(Next(), (t, op) => true, HasPassword, v, ops, i);
  }

  /** After any run, whatever failed in it, opening the vault with the password of the last
      operation that wrote the file restores exactly the map that was in memory right after that
      operation. */
  lemma UnlockRestoresLastWritten(v: Vault, ops: seq<Op>, k: nat)
    requires LastWrite(v, ops, |ops|, k) && HasPassword(v)
    ensures
      var after := Runs.At(Next(), v, ops, k + 1);
      && after.session.Some?
      && var v' := UnlockStep(Runs.Run(Next(), v, ops), after.session.value.password, GOOD).0;
         v'.session.Some? && v'.session.value.secrets == after.session.value.secrets
  {
    SavedIsLastWritten(v, ops, |ops|, k);
    PasswordsStay(v, ops, k + 1);
    var after, final := Runs.At(Next(), v, ops, k + 1), Runs.Run(Next(), v, ops);
    Runs.AtEnds(Next(), v, ops);
    UnlockRestoresSaved(final, after.session.value.password);
    assert final.saved.value.password == after.session.value.password;
  }

  /** An unlock that cannot read the file, or under an empty password, changes nothing. */
  lemma UnlockRefused(v: Vault, password: Bytes, luck: Luck)
    requires password == [] || (v.saved.Some? && !luck.readOk)
    ensures UnlockStep(v, password, luck) == (v, false)
  {
  }

  /** Unlocking an open vault that was never saved keeps what is in memory, under the new password,
      and saves it if it can. */
  lemma UnlockWithoutFile(v: Vault, password: Bytes, saveOk: bool)
    requires v.saved.None? && password != []
    ensures
      var (v', ok) := UnlockStep(v, password, Luck(true, true, true, saveOk));
      var secrets := if v.session.Some? then v.session.value.secrets else map[];
      && ok == saveOk && v'.session == Some(Session(password, true, secrets))
      && v'.saved == if saveOk then Some(Saved(password, secrets)) else None
  {
  }

  /** The operation gets no key: it is no unlock, or one that fails before it has one. */
  predicate NoKey(op: Op) {
    op.Unlock? ==> op.password == [] || !op.luck.kdfOk
  }

  /** After an unlock of an open vault whose key derivation failed, memory stays readable but no
      operation writes the file until an unlock gets a key again. */
  lemma FailedDerivationStopsSaving(v: Vault, password: Bytes, luck: Luck, ops: seq<Op>, i: nat)
    requires v.session.Some? && password != [] && luck.readOk && !luck.kdfOk && i <= |ops|
    requires forall k :: 0 <= k < |ops| ==> NoKey(ops[k])
    ensures
      var (v', ok) := UnlockStep(v, password, luck);
      && !ok && (forall name :: Load(v', name) == Load(v, name))
      && Runs.At(Next(), v', ops, i).saved == v.saved
  {
    var v' := UnlockStep(v, password, luck).0;
    var inv := (k: int, t: Vault) => t.saved == v.saved && (t.session.Some? ==> !t.session.value.sealable);
    forall k, t | 0 <= k < |ops| && inv(k, t)
      ensures inv(k + 1, Next()(t, ops[k]))
    {
    }
    Runs.IndexedInvariant(Next(), inv, v', ops, i);
  }

  /** Closing and reopening a vault is invisible exactly when what is in memory has been saved. */
  lemma ReopenRestoresIff(v: Vault)
    requires v.session.Some? && v.session.value.password != []
    ensures
      var s := v.session.value;
      var v' := UnlockStep(LockStep(v), s.password, GOOD).0;
      (v'.session.Some? && v'.session.value.secrets == s.secrets) <==>
        if v.saved.Some? then v.saved == Some(Saved(s.password, s.secrets)) else s.secrets == map[]
  {
  }
}
