/** What holds over every run of sign-ins, restores, sign-outs and restarts. */
module AuthRuns {
  import opened ByteStrings
  import opened Accounts
  import opened AuthSteps
  import opened AuthTokens
  import DM = DurableMap
  import Runs

  // ---- bearer token and context ----

  predicate BearerAgrees(s: State) {
    s.bearer == if s.context.Some? then s.context.value.accessToken else []
  }

  /** In every state of every run, whatever fails, the bearer token is the context's access
      token, and empty without a context. */
  lemma BearerIsContextToken(d: Device, s: State, events: seq<Event>, i: nat)
    requires BearerAgrees(s) && i <= |events|
    ensures BearerAgrees(Runs.At(Next(d), s, events, i))
  {
    Runs.Invariant(Next(d), (t, e) => true, BearerAgrees, s, events, i);
  }

  // ---- runs in which storing succeeds ----

  /** The vault is open under this password, and disk and memory agree. */
  predicate Synced(password: Bytes, v: DM.Vault) {
    v.session.Some? && DM.Agrees(DM.Plain(password, true, v.session.value.secrets), v)
  }

  predicate KeyWrite(w: Write) {
    w.saveOk && w.name != [] && !(TOKEN_PREFIX <= w.name)
  }

  predicate KeyWrites(keys: Keys) {
    forall i :: 0 <= i < |keys.writes| ==> KeyWrite(keys.writes[i])
  }

  /** Storing succeeds and the clock has moved on since the last login. */
  predicate GoodWorld(s: State, w: World) {
    w.saveOk && w.writeOk && forall a :: a in s.accounts ==> a.lastLogin < w.now
  }

  predicate GoodSignIn(s: State, keys: Keys, response: Option<SessionResponse>, w: World) {
    KeyWrites(keys) && GoodWorld(s, w) && w.accountId != [] && (response.Some? ==> response.value.refreshToken != [])
  }

  /** Storing succeeds, tokens and account ids are not empty, the clock moves on. */
  predicate Smooth(password: Bytes, s: State, e: Event) {
    match e
    case Register(_, _, keys, _, response, w) => GoodSignIn(s, keys, response, w)
    case Login(_, _, keys, response, w) => GoodSignIn(s, keys, response, w)
    case Restore(response, w) => GoodWorld(s, w) && (response.Some? ==> response.value.refreshToken != [])
    case Logout(_, saveOk, writeOk) => saveOk && writeOk
    case Restart(p) => p == password
  }

  function Care(password: Bytes): (State, Event) -> bool {
    (s, e) => Smooth(password, s, e)
  }

  lemma StoreToken(password: Bytes, v: DM.Vault, u: Text, token: Bytes, other: Text)
    requires Synced(password, v) && token != []
    ensures
      var (v', ok) := DM.StoreStep(v, TokenName(u), token, true);
      ok && Synced(password, v') && Token(v', other) == if other == u then Some(token) else Token(v, other)
  {
    TokenNames(u, other);
  }

  lemma RemoveToken(password: Bytes, v: DM.Vault, u: Text, other: Text)
    requires Synced(password, v)
    ensures
      var v' := DM.RemoveStep(v, TokenName(u), true).0;
      Synced(password, v') && Token(v', other) == if other == u then None else Token(v, other)
  {
    TokenNames(u, other);
  }

  lemma {:induction false} StoreKeys(password: Bytes, v: DM.Vault, writes: seq<Write>, u: Text)
    requires Synced(password, v) && forall i :: 0 <= i < |writes| ==> KeyWrite(writes[i])
    ensures Synced(password, StoreAll(v, writes)) && Token(StoreAll(v, writes), u) == Token(v, u)
  {
    if writes != [] {
      StoreKeys(password, v, writes[..|writes| - 1], u);
      TokenNames(u, u);
    }
  }

  /** Session, vault and accounts table tell the same story. */
  predicate Consistent(password: Bytes, s: State) {
    && Synced(password, s.vault)
    && (forall a :: a in s.accounts ==> a.accountId != [])
    && (s.context.Some? ==>
          && Token(s.vault, s.context.value.userId) == Some(s.context.value.refreshToken)
          && Active(s.accounts).Some?
          && Active(s.accounts).value.userId == s.context.value.userId
          && Active(s.accounts).value.refreshToken == s.context.value.refreshToken)
  }

  /** A freshly set up device is consistent. */
  lemma FreshDeviceConsistent(password: Bytes)
    requires password != []
    ensures Consistent(password, State(None, [], DM.UnlockStep(DM.Vault(None, None), password, DM.GOOD).0, []))
  {
  }

  lemma PersistConsistent(d: Device, password: Bytes, s: State, username: Text, r: SessionResponse, w: World)
    requires Synced(password, s.vault) && (forall a :: a in s.accounts ==> a.accountId != [])
    requires GoodWorld(s, w) && w.accountId != [] && r.refreshToken != []
    ensures
      var (s', ok) := PersistStep(d, s, username, r, w);
      ok && Consistent(password, s') && s'.context.Some? && s'.context.value.userId == r.userId
  {
    StoreToken(password, s.vault, r.userId, r.refreshToken, r.userId);
    var account := Account(w.accountId, d.serverId, r.userId, username, d.deviceId, r.refreshToken, w.now);
    NewestBecomesActive(s.accounts, account);
    UpsertRows(s.accounts, account);
  }

  lemma RestoreConsistent(password: Bytes, s: State, response: Option<RefreshResponse>, w: World)
    requires Consistent(password, s) && GoodWorld(s, w) && (response.Some? ==> response.value.refreshToken != [])
    ensures Consistent(password, RestoreStep(s, response, w).0)
  {
    var account := Active(s.accounts);
    if account.Some? && response.Some? {
      var a, r := account.value, response.value;
      var updated := a.(refreshToken := r.refreshToken, lastLogin := w.now);
      StoreToken(password, s.vault, a.userId, r.refreshToken, a.userId);
      NewestBecomesActive(s.accounts, updated);
      UpsertRows(s.accounts, updated);
    }
  }

  lemma LogoutConsistent(password: Bytes, s: State, serverOk: bool)
    requires Consistent(password, s)
    ensures Consistent(password, LogoutStep(s, serverOk, true, true).0)
  {
    var active := Active(s.accounts);
    if active.Some? {
      RemoveToken(password, s.vault, active.value.userId, []);
      DeleteRows(s.accounts, active.value.accountId);
    }
  }

  lemma KeysConsistent(password: Bytes, s: State, keys: Keys)
    requires Consistent(password, s) && KeyWrites(keys)
    ensures Consistent(password, s.(vault := StoreAll(s.vault, keys.writes)))
  {
    StoreKeys(password, s.vault, keys.writes, if s.context.Some? then s.context.value.userId else []);
  }

  lemma StepConsistent(d: Device, password: Bytes, s: State, e: Event)
    requires password != [] && Consistent(password, s) && Smooth(password, s, e)
    ensures Consistent(password, Step(d, s, e))
  {
    match e
    case Register(username, _, keys, _, response, w) =>
      KeysConsistent(password, s, keys);
      if response.Some? {
        PersistConsistent(d, password, s.(vault := StoreAll(s.vault, keys.writes)), username, response.value, w);
      }
    case Login(username, _, keys, response, w) =>
      KeysConsistent(password, s, keys);
      if response.Some? {
        PersistConsistent(d, password, s.(vault := StoreAll(s.vault, keys.writes)), username, response.value, w);
      }
    case Restore(response, w) => RestoreConsistent(password, s, response, w);
    case Logout(serverOk, _, _) => LogoutConsistent(password, s, serverOk);
    case Restart(_) =>
  }

  /** Over any run in which storing succeeds, tokens are not empty and the clock moves on, the
      active account is the session's: its user and its refresh token, which the vault holds in
      memory and on disk. */
  lemma SessionStaysConsistent(d: Device, password: Bytes, s: State, events: seq<Event>, i: nat)
    requires password != [] && Consistent(password, s) && i <= |events|
    requires Runs.Guarded(Next(d), Care(password), s, events)
    ensures Consistent(password, Runs.At(Next(d), s, events, i))
  {
    var inv := (t: State) => Consistent(password, t);
    forall t, e | inv(t) && Care(password)(t, e)
      ensures inv(Next(d)(t, e))
    {
      StepConsistent(d, password, t, e);
    }
    Runs.Invariant(Next(d), Care(password), inv, s, events, i);
  }
}
