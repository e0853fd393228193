/** What each call of the sign-in service leaves behind, in the terms of its inputs: whose session
    it is, which token the network sends, and what is kept. */
module AuthOutcomes {
  import opened ByteStrings
  import opened Accounts
  import opened AuthSteps
  import AuthRuns
  import DM = DurableMap
  import Runs

  function TokenIn(v: DM.Vault, userId: Text): Option<Bytes> {
    DM.Load(v, Ascii("refresh_token/") + userId)
  }

  lemma TokenNamed(userId: Text)
    ensures TokenName(userId) == Ascii("refresh_token/") + userId && TokenName(userId) != []
  {
    assert |Ascii("refresh_token/")| == 14;
  }

  /** The refresh token can be saved. */
  predicate Kept(s: State, r: SessionResponse, w: World) {
    s.vault.session.Some? && s.vault.session.value.sealable && w.saveOk && r.refreshToken != []
  }

  /** The session of an answered sign-in: the network sends the access token, the context has
      both tokens, and the call succeeds exactly when the refresh token could be saved and the
      account row be written. */
  predicate SignedIn(d: Device, s: State, username: Text, r: SessionResponse, w: World, s': State, ok: bool) {
    && s'.bearer == r.accessToken
    && s'.context == Some(Context(r.userId, username, d.deviceId, r.accessToken, r.refreshToken))
    && (s'.vault.session.Some? && r.refreshToken != [] ==> TokenIn(s'.vault, r.userId) == Some(r.refreshToken))
    && (Kept(s', r, w) ==>
          s'.vault.saved == Some(DM.Saved(s'.vault.session.value.password, s'.vault.session.value.secrets)))
    && (ok <==> Kept(s', r, w) && w.writeOk)
    && s'.accounts ==
       if ok then
         Upsert(s.accounts, Account(w.accountId, d.serverId, r.userId, username, d.deviceId, r.refreshToken, w.now))
       else s.accounts
  }

  /** Nobody is brought in and the call fails. */
  predicate NotSignedIn(s: State, s': State, ok: bool) {
    !ok && s'.context == s.context && s'.bearer == s.bearer && s'.accounts == s.accounts
  }

  lemma PersistOutcome(d: Device, s: State, username: Text, r: SessionResponse, w: World)
    ensures
      var (s', ok) := PersistStep(d, s, username, r, w);
      SignedIn(d, s, username, r, w, s', ok)
  {
    TokenNamed(r.userId);
  }

  /** A login needs a name, a password and the server's answer; it does without key material. */
  lemma LoginOutcome(d: Device, s: State, username: Text, password: Text, keys: Keys,
                     response: Option<SessionResponse>, w: World)
    ensures
      var (s', ok) := LoginStep(d, s, username, password, keys, response, w);
      && (username == [] || password == [] ==> s' == s && !ok)
      && if username != [] && password != [] && response.Some? then SignedIn(d, s, username, response.value, w, s', ok)
         else NotSignedIn(s, s', ok)
  {
    if username != [] && password != [] && response.Some? {
      PersistOutcome(d, s.(vault := StoreAll(s.vault, keys.writes)), username, response.value, w);
    }
  }

  /** A registration needs its keys and the wrapped sync key as well. */
  lemma RegisterOutcome(d: Device, s: State, username: Text, password: Text, keys: Keys, wrapOk: bool,
                        response: Option<SessionResponse>, w: World)
    ensures
      var (s', ok) := RegisterStep(d, s, username, password, keys, wrapOk, response, w);
      && (username == [] || password == [] ==> s' == s && !ok)
      && if username != [] && password != [] && keys.ok && wrapOk && response.Some? then
           SignedIn(d, s, username, response.value, w, s', ok)
         else NotSignedIn(s, s', ok)
  {
    if username != [] && password != [] && keys.ok && wrapOk && response.Some? {
      PersistOutcome(d, s.(vault := StoreAll(s.vault, keys.writes)), username, response.value, w);
    }
  }

  /** A restore brings back the active account if its token is stored and the server refreshes it;
      the answer says whether the account row could be written. */
  lemma RestoreOutcome(s: State, response: Option<RefreshResponse>, w: World)
    requires UniqueIds(s.accounts)
    ensures
      var (s', ok) := RestoreStep(s, response, w);
      var account := Active(s.accounts);
      if account.None? || TokenIn(s.vault, account.value.userId).None? || response.None? then s' == s && !ok
      else
        var a, r := account.value, response.value;
        && s'.bearer == r.accessToken
        && s'.context == Some(Context(a.userId, a.username, a.activeDeviceId, r.accessToken, r.refreshToken))
        && (r.refreshToken != [] ==> TokenIn(s'.vault, a.userId) == Some(r.refreshToken))
        && ok == w.writeOk
        && (!ok ==> s'.accounts == s.accounts)
        && (ok ==> forall b :: b in s'.accounts <==>
                     || b == a.(refreshToken := r.refreshToken, lastLogin := w.now)
                     || (b in s.accounts && b.accountId != a.accountId))
  {
    var account := Active(s.accounts);
    if account.Some? && response.Some? {
      TokenNamed(account.value.userId);
      UpsertKeepsOthers(s.accounts, account.value.(refreshToken := response.value.refreshToken, lastLogin := w.now));
    }
  }

  /** A logout ends the session whatever the server says, and answers what it says; the active
      account's token is forgotten and its row deleted. */
  lemma LogoutOutcome(s: State, serverOk: bool, saveOk: bool, writeOk: bool)
    ensures
      var (s', ok) := LogoutStep(s, serverOk, saveOk, writeOk);
      var active := Active(s.accounts);
      if s.context.None? then s' == s && ok
      else
        && s'.context == None && s'.bearer == [] && ok == serverOk
        && (active.Some? ==> TokenIn(s'.vault, active.value.userId) == None)
        && if active.Some? && active.value.accountId != [] && writeOk then
             forall b :: b in s'.accounts <==> b in s.accounts && b.accountId != active.value.accountId
           else s'.accounts == s.accounts
  {
    var active := Active(s.accounts);
    if active.Some? {
      TokenNamed(active.value.userId);
      DeleteRows(s.accounts, active.value.accountId);
    }
  }

  /** Every secret stored on the way is in the open vault afterwards, under its own name, unless a
      later one took the name; other secrets stay. */
  lemma {:induction false} KeysStored(v: DM.Vault, writes: seq<Write>, i: nat)
    requires v.session.Some? && i < |writes| && writes[i].name != [] && writes[i].value != []
    requires forall k :: i < k < |writes| ==> writes[k].name != writes[i].name
    ensures DM.Load(StoreAll(v, writes), writes[i].name) == Some(writes[i].value)
  {
    var n := |writes| - 1;
    StoresStayOpen(v, writes[..n]);
    if i < n {
      KeysStored(v, writes[..n], i);
    }
  }

  lemma {:induction false} StoresStayOpen(v: DM.Vault, writes: seq<Write>)
    requires v.session.Some?
    ensures StoreAll(v, writes).session.Some?
    ensures forall name :: (forall k :: 0 <= k < |writes| ==> writes[k].name != name) ==>
              DM.Load(StoreAll(v, writes), name) == DM.Load(v, name)
  {
    if writes != [] {
      StoresStayOpen(v, writes[..|writes| - 1]);
    }
  }

  // ---- the bearer token of a run ----

  /** What an event makes of the bearer token, if it touches it: the access token of an answer that
      brings someone in, or nothing at a logout or restart. */
  function Granted(s: State, e: Event): Option<Text> {
    match e
    case Register(username, password, keys, wrapOk, response, _) =>
      if username != [] && password != [] && keys.ok && wrapOk && response.Some? then Some(response.value.accessToken)
      else None
    case Login(username, password, _, response, _) =>
      if username != [] && password != [] && response.Some? then Some(response.value.accessToken) else None
    case Restore(refreshed, _) =>
      var account := Active(s.accounts);
      if account.Some? && TokenIn(s.vault, account.value.userId).Some? && refreshed.Some? then
        Some(refreshed.value.accessToken)
      else None
    case Logout(_, _, _) => Some([])
    case Restart(_) => Some([])
  }

  lemma BearerStep(d: Device, s: State, e: Event)
    requires AuthRuns.BearerAgrees(s)
    ensures Step(d, s, e).bearer == if Granted(s, e).Some? then Granted(s, e).value else s.bearer
  {
    if e.Restore? && Active(s.accounts).Some? {
      TokenNamed(Active(s.accounts).value.userId);
    }
  }

  function GrantedAt(d: Device, s: State, events: seq<Event>, i: nat): Option<Text>
    requires i < |events|
  {
    Granted(Runs.At(Next(d), s, events, i), events[i])
  }

  lemma BearerAfter(d: Device, s: State, events: seq<Event>, i: nat)
    requires AuthRuns.BearerAgrees(s) && i < |events|
    ensures Runs.At(Next(d), s, events, i + 1).bearer
         == if GrantedAt(d, s, events, i).Some? then GrantedAt(d, s, events, i).value
            else Runs.At(Next(d), s, events, i).bearer
  {
    AuthRuns.BearerIsContextToken(d, s, events, i);
    Runs.AtNext(Next(d), s, events, i);
    BearerStep(d, Runs.At(Next(d), s, events, i), events[i]);
  }

  /** In any run, whatever fails, the network sends the access token of the last answer that brought
      someone in, and none after a later logout or restart. */
  lemma {:induction false} BearerIsLastGranted(d: Device, s: State, events: seq<Event>, n: nat, k: nat)
    requires AuthRuns.BearerAgrees(s) && k < n <= |events|
    requires GrantedAt(d, s, events, k).Some?
    requires forall j :: k < j < n ==> GrantedAt(d, s, events, j) == None
    ensures Runs.At(Next(d), s, events, n).bearer == GrantedAt(d, s, events, k).value
  {
    BearerAfter(d, s, events, n - 1);
    if k < n - 1 {
      BearerIsLastGranted(d, s, events, n - 1, k);
    }
  }
}
