/** What becomes of refresh tokens over runs in which anything may fail. */
module AuthTokens {
  import opened ByteStrings
  import opened Accounts
  import opened AuthSteps
  import DM = DurableMap
  import Runs

  function Token(v: DM.Vault, userId: Text): Option<Bytes> {
    DM.Load(v, TokenName(userId))
  }

  /** The token in the file. */
  function DiskToken(v: DM.Vault, userId: Text): Option<Bytes> {
    if v.saved.Some? && TokenName(userId) in v.saved.value.secrets then Some(v.saved.value.secrets[TokenName(userId)])
    else None
  }

  lemma TokenNames(u: Text, u': Text)
    ensures TokenName(u) == TokenName(u') <==> u == u'
    ensures TokenName(u) != [] && TOKEN_PREFIX <= TokenName(u)
  {
    assert TokenName(u)[|TOKEN_PREFIX|..] == u && TokenName(u')[|TOKEN_PREFIX|..] == u';
  }

  /** What one edit of the vault does to a user's token in memory and on disk. */
  predicate Edited(v: DM.Vault, v': DM.Vault, wrote: bool, userId: Text, token: Option<Bytes>) {
    && (v.session.Some? <==> v'.session.Some?)
    && Token(v', userId) == token
    && DiskToken(v', userId) == if wrote then token else DiskToken(v, userId)
  }

  lemma StoreEffect(v: DM.Vault, name: Text, value: Bytes, saveOk: bool, other: Text)
    ensures
      var (v', ok) := DM.StoreStep(v, name, value, saveOk);
      Edited(v, v', ok, other,
             if v.session.Some? && value != [] && name == TokenName(other) then Some(value) else Token(v, other))
  {
    TokenNames(other, other);
  }

  lemma RemoveEffect(v: DM.Vault, u: Text, saveOk: bool, other: Text)
    ensures
      var v' := DM.RemoveStep(v, TokenName(u), saveOk).0;
      Edited(v, v', DM.Wrote(v, DM.Remove(TokenName(u), saveOk)), other, if other == u then None else Token(v, other))
  {
    TokenNames(u, other);
  }

  /** The key stores never name a token. */
  predicate KeyNames(writes: seq<Write>) {
    forall i :: 0 <= i < |writes| ==> !(TOKEN_PREFIX <= writes[i].name)
  }

  /** One of the stores wrote the file. */
  predicate StoredAny(v: DM.Vault, writes: seq<Write>) {
    writes != [] &&
    var init, w := writes[..|writes| - 1], writes[|writes| - 1];
    StoredAny(v, init) || DM.StoreStep(StoreAll(v, init), w.name, w.value, w.saveOk).1
  }

  lemma {:induction false} StoreAllEffect(v: DM.Vault, writes: seq<Write>, other: Text)
    requires KeyNames(writes)
    ensures Edited(v, StoreAll(v, writes), StoredAny(v, writes), other, Token(v, other))
  {
    if writes != [] {
      var init, w := writes[..|writes| - 1], writes[|writes| - 1];
      StoreAllEffect(v, init, other);
      StoreEffect(StoreAll(v, init), w.name, w.value, w.saveOk, other);
      TokenNames(other, other);
    }
  }

  // ---- the four calls, whatever fails ----

  /** The sign-in an event ends in, if the server answers one. */
  function SignIn(e: Event): Option<SessionResponse> {
    match e
    case Register(username, password, keys, wrapOk, response, _) =>
      if username != [] && password != [] && keys.ok && wrapOk then response else None
    case Login(username, password, _, response, _) => if username != [] && password != [] then response else None
    case _ => None
  }

  function KeyStores(e: Event): seq<Write> {
    match e
    case Register(username, password, keys, _, _, _) => if username != [] && password != [] then keys.writes else []
    case Login(username, password, keys, _, _) => if username != [] && password != [] then keys.writes else []
    case _ => []
  }

  /** The event wrote the vault's file. */
  predicate WroteVault(s: State, e: Event) {
    match e
    case Register(_, _, _, _, _, w) => StoredAny(s.vault, KeyStores(e)) || StoredToken(s, e, w)
    case Login(_, _, _, _, w) => StoredAny(s.vault, KeyStores(e)) || StoredToken(s, e, w)
    case Restore(response, w) =>
      var a := Active(s.accounts);
      && a.Some? && Token(s.vault, a.value.userId).Some? && response.Some?
      && DM.StoreStep(s.vault, TokenName(a.value.userId), response.value.refreshToken, w.saveOk).1
    case Logout(_, saveOk, _) =>
      var a := Active(s.accounts);
      s.context.Some? && a.Some? && DM.Wrote(s.vault, DM.Remove(TokenName(a.value.userId), saveOk))
    case Restart(_) => false
  }

  predicate StoredToken(s: State, e: Event, w: World) {
    && SignIn(e).Some?
    && DM.StoreStep(StoreAll(s.vault, KeyStores(e)), TokenName(SignIn(e).value.userId),
                    SignIn(e).value.refreshToken, w.saveOk).1
  }

  /** The user an event may bring in: the answered sign-in's or the restored account's. */
  function Entering(s: State, e: Event): Option<Text> {
    if SignIn(e).Some? then Some(SignIn(e).value.userId)
    else if e.Restore? && e.refreshed.Some? && Active(s.accounts).Some?
         && Token(s.vault, Active(s.accounts).value.userId).Some? then Some(Active(s.accounts).value.userId)
    else None
  }

  /** A user's token is untouched by every event of the process that neither brings that user in
      nor logs that user out. */
  lemma ProcessEvent(d: Device, s: State, e: Event, userId: Text)
    requires !e.Restart? && KeyNames(KeyStores(e)) && Entering(s, e) != Some(userId)
    ensures
      var s' := Step(d, s, e);
      var out := e.Logout? && s.context.Some? && Active(s.accounts).Some? && Active(s.accounts).value.userId == userId;
      && Edited(s.vault, s'.vault, WroteVault(s, e), userId, if out then None else Token(s.vault, userId))
      && (s'.context.Some? ==> s'.context == s.context || Some(s'.context.value.userId) == Entering(s, e))
  {
    match e
    case Register(_, _, _, _, _, w) => SignInEvent(d, s, e, w, userId);
    case Login(_, _, _, _, w) => SignInEvent(d, s, e, w, userId);
    case Restore(response, w) =>
      if Entering(s, e).Some? {
        var u := Active(s.accounts).value.userId;
        StoreEffect(s.vault, TokenName(u), response.value.refreshToken, w.saveOk, userId);
        TokenNames(u, userId);
      }
    case Logout(_, saveOk, _) =>
      if s.context.Some? && Active(s.accounts).Some? {
        RemoveEffect(s.vault, Active(s.accounts).value.userId, saveOk, userId);
      }
  }

  lemma SignInEvent(d: Device, s: State, e: Event, w: World, userId: Text)
    requires (e.Register? || e.Login?) && w == e.w && KeyNames(KeyStores(e)) && Entering(s, e) != Some(userId)
    ensures
      var s' := Step(d, s, e);
      && Edited(s.vault, s'.vault, WroteVault(s, e), userId, Token(s.vault, userId))
      && (s'.context.Some? ==> s'.context == s.context || Some(s'.context.value.userId) == Entering(s, e))
  {
    StoreAllEffect(s.vault, KeyStores(e), userId);
    if SignIn(e).Some? {
      var r := SignIn(e).value;
      StoreEffect(StoreAll(s.vault, KeyStores(e)), TokenName(r.userId), r.refreshToken, w.saveOk, userId);
      TokenNames(r.userId, userId);
    }
  }

  // ---- while a session lasts ----

  /** The event brings this user in: the context is the user's, and the token in it went to the
      vault if that was open. */
  lemma EnteringEvent(d: Device, s: State, e: Event, userId: Text)
    requires KeyNames(KeyStores(e)) && Entering(s, e) == Some(userId)
    ensures
      var s' := Step(d, s, e);
      && s'.context.Some? && s'.context.value.userId == userId
      && (s.vault.session.Some? <==> s'.vault.session.Some?)
      && (s.vault.session.Some? && s'.context.value.refreshToken != [] ==>
            Token(s'.vault, userId) == Some(s'.context.value.refreshToken))
      && (EnteringSaved(s, e) ==> DiskToken(s'.vault, userId) == Some(s'.context.value.refreshToken))
  {
    if e.Restore? {
      StoreEffect(s.vault, TokenName(userId), e.refreshed.value.refreshToken, e.w.saveOk, userId);
    } else {
      StoreAllEffect(s.vault, KeyStores(e), userId);
      StoreEffect(StoreAll(s.vault, KeyStores(e)), TokenName(userId), SignIn(e).value.refreshToken, e.w.saveOk, userId);
    }
  }

  /** An event that brings a user in manages to save the token. */
  predicate EnteringSaved(s: State, e: Event) {
    match e
    case Register(_, _, _, _, _, w) => SignIn(e).Some? ==> StoredToken(s, e, w)
    case Login(_, _, _, _, w) => SignIn(e).Some? ==> StoredToken(s, e, w)
    case Restore(_, _) => Entering(s, e).Some? ==> WroteVault(s, e)
    case _ => true
  }

  /** Tokens are not empty, and a restart tries the password the file was saved under. */
  predicate Proper(d: Device, s: State, e: Event) {
    && KeyNames(KeyStores(e))
    && (SignIn(e).Some? ==> SignIn(e).value.refreshToken != [])
    && (e.Restore? && e.refreshed.Some? ==> e.refreshed.value.refreshToken != [])
    && (e.Restart? ==>
          e.vaultPassword != [] && (s.vault.saved.Some? ==> e.vaultPassword == s.vault.saved.value.password))
  }

  function IsProper(d: Device): (State, Event) -> bool {
    (s, e) => Proper(d, s, e)
  }

  predicate TokenHeld(s: State) {
    s.vault.session.Some? &&
    (s.context.Some? ==> Token(s.vault, s.context.value.userId) == Some(s.context.value.refreshToken))
  }

  lemma TokenHeldStep(d: Device, s: State, e: Event)
    requires TokenHeld(s) && Proper(d, s, e)
    ensures TokenHeld(Step(d, s, e))
  {
    if Entering(s, e).Some? {
      EnteringEvent(d, s, e, Entering(s, e).value);
    } else if !e.Restart? {
      ProcessEvent(d, s, e, if s.context.Some? then s.context.value.userId else []);
    }
  }

  /** The open vault always holds the session's current refresh token, whichever saves and
      account writes fail. */
  lemma SessionTokenHeld(d: Device, s: State, events: seq<Event>, i: nat)
    requires TokenHeld(s) && i <= |events| && Runs.Guarded(Next(d), IsProper(d), s, events)
    ensures TokenHeld(Runs.At(Next(d), s, events, i))
  {
    forall t, e | TokenHeld(t) && IsProper(d)(t, e)
      ensures TokenHeld(Next(d)(t, e))
    {
      TokenHeldStep(d, t, e);
    }
    Runs.Invariant(Next(d), IsProper(d), TokenHeld, s, events, i);
  }

  predicate TokenOnDisk(s: State) {
    s.context.Some? ==>
      && Token(s.vault, s.context.value.userId) == Some(s.context.value.refreshToken)
      && DiskToken(s.vault, s.context.value.userId) == Some(s.context.value.refreshToken)
  }

  /** Sign-ins and restores manage to save their tokens; nothing is asked of other saves. */
  predicate SavesTokens(s: State, e: Event) {
    KeyNames(KeyStores(e)) && EnteringSaved(s, e)
  }

  lemma TokenOnDiskStep(d: Device, s: State, e: Event)
    requires TokenOnDisk(s) && SavesTokens(s, e)
    ensures TokenOnDisk(Step(d, s, e))
  {
    if Entering(s, e).Some? {
      EnteringEvent(d, s, e, Entering(s, e).value);
    } else if !e.Restart? {
      ProcessEvent(d, s, e, if s.context.Some? then s.context.value.userId else []);
    }
  }

  /** The file holds it too as long as the saves of the tokens themselves work, whatever other
      saves and writes fail. */
  lemma SessionTokenOnDisk(d: Device, s: State, events: seq<Event>, i: nat)
    requires TokenOnDisk(s) && i <= |events| && Runs.Guarded(Next(d), SavesTokens, s, events)
    ensures TokenOnDisk(Runs.At(Next(d), s, events, i))
  {
    forall t, e | TokenOnDisk(t) && SavesTokens(t, e)
      ensures TokenOnDisk(Next(d)(t, e))
    {
      TokenOnDiskStep(d, t, e);
    }
    Runs.Invariant(Next(d), SavesTokens, TokenOnDisk, s, events, i);
  }

  // ---- after a logout ----

  /** The user of the account a logout goes by. */
  function LoggedOut(s: State): Text
    requires Active(s.accounts).Some?
  {
    Active(s.accounts).value.userId
  }

  /** The event is no sign-in of this user. */
  predicate StaysOut(userId: Text, e: Event) {
    KeyNames(KeyStores(e)) && (SignIn(e).Some? ==> SignIn(e).value.userId != userId)
  }

  predicate AllStayOut(userId: Text, events: seq<Event>) {
    forall k :: 0 <= k < |events| ==> StaysOut(userId, events[k])
  }

  predicate NoRestart(events: seq<Event>) {
    forall k :: 0 <= k < |events| ==> !events[k].Restart?
  }

  /** No session of this user and no token of it in memory. */
  predicate Gone(userId: Text, s: State) {
    Token(s.vault, userId) == None && (s.context.Some? ==> s.context.value.userId != userId)
  }

  lemma GoneStep(d: Device, userId: Text, s: State, e: Event)
    requires Gone(userId, s) && StaysOut(userId, e) && !e.Restart?
    ensures
      var s' := Step(d, s, e);
      Gone(userId, s') && DiskToken(s'.vault, userId) == if WroteVault(s, e) then None else DiskToken(s.vault, userId)
  {
    ProcessEvent(d, s, e, userId);
  }

  lemma LogoutGone(s: State, serverOk: bool, saveOk: bool, writeOk: bool)
    requires s.context.Some? && Active(s.accounts).Some?
    ensures
      var out := LogoutStep(s, serverOk, saveOk, writeOk).0;
      && Gone(LoggedOut(s), out)
      && DiskToken(out.vault, LoggedOut(s))
         == if WroteVault(s, Logout(serverOk, saveOk, writeOk)) then None else DiskToken(s.vault, LoggedOut(s))
  {
    RemoveEffect(s.vault, LoggedOut(s), saveOk, LoggedOut(s));
  }

  /** As long as the process runs, a logout holds whatever fails, its own save included: no
      restore brings the active user back before that user signs in again. */
  lemma LogoutHoldsUntilRestart(d: Device, s: State, serverOk: bool, saveOk: bool, writeOk: bool,
                                events: seq<Event>, i: nat)
    requires s.context.Some? && Active(s.accounts).Some? && i <= |events|
    requires AllStayOut(LoggedOut(s), events) && NoRestart(events)
    ensures Gone(LoggedOut(s), Runs.At(Next(d), LogoutStep(s, serverOk, saveOk, writeOk).0, events, i))
  {
    var userId := LoggedOut(s);
    var inv := (t: State) => Gone(userId, t);
    var guard := (t: State, e: Event) => StaysOut(userId, e) && !e.Restart?;
    forall t, e | inv(t) && guard(t, e)
      ensures inv(Next(d)(t, e))
    {
      GoneStep(d, userId, t, e);
    }
    LogoutGone(s, serverOk, saveOk, writeOk);
    Runs.Invariant(Next(d), guard, inv, LogoutStep(s, serverOk, saveOk, writeOk).0, events, i);
  }

  lemma RestartToken(s: State, password: Bytes, userId: Text)
    ensures
      var v' := RestartStep(s, password).vault;
      && (Token(v', userId) == None || Token(v', userId) == DiskToken(s.vault, userId))
      && (DiskToken(v', userId) == None || DiskToken(v', userId) == DiskToken(s.vault, userId))
      && (s.vault.saved.Some? && password == s.vault.saved.value.password && password != [] ==>
            Token(v', userId) == DiskToken(s.vault, userId) && v'.saved == s.vault.saved)
  {
    TokenNames(userId, userId);
  }

  /** A logout whose save works, or that finds no token on disk, is final: no restore and no
      restart, under any password, brings the active user back, whatever fails afterwards, before
      that user signs in again. */
  lemma LogoutIsFinal(d: Device, s: State, serverOk: bool, saveOk: bool, writeOk: bool, events: seq<Event>, i: nat)
    requires s.context.Some? && Active(s.accounts).Some? && i <= |events|
    requires WroteVault(s, Logout(serverOk, saveOk, writeOk)) || DiskToken(s.vault, LoggedOut(s)) == None
    requires AllStayOut(LoggedOut(s), events)
    ensures Gone(LoggedOut(s), Runs.At(Next(d), LogoutStep(s, serverOk, saveOk, writeOk).0, events, i))
  {
    var userId := LoggedOut(s);
    var inv := (t: State) => Gone(userId, t) && DiskToken(t.vault, userId) == None;
    var guard := (t: State, e: Event) => StaysOut(userId, e);
    forall t, e | inv(t) && guard(t, e)
      ensures inv(Next(d)(t, e))
    {
      if e.Restart? {
        RestartToken(t, e.vaultPassword, userId);
      } else {
        GoneStep(d, userId, t, e);
      }
    }
    LogoutGone(s, serverOk, saveOk, writeOk);
    Runs.Invariant(Next(d), guard, inv, LogoutStep(s, serverOk, saveOk, writeOk).0, events, i);
  }

  /** Some event of the run wrote the vault's file. */
  predicate WroteSince(d: Device, s: State, events: seq<Event>) {
    events != [] &&
    var init, last := events[..|events| - 1], events[|events| - 1];
    WroteSince(d, s, init) || WroteVault(Runs.Run(Next(d), s, init), last)
  }

  lemma {:induction false} DiskTokenSince(d: Device, userId: Text, s: State, events: seq<Event>)
    requires Gone(userId, s) && AllStayOut(userId, events) && NoRestart(events)
    ensures
      var t := Runs.Run(Next(d), s, events);
      && Gone(userId, t)
      && DiskToken(t.vault, userId) == if WroteSince(d, s, events) then None else DiskToken(s.vault, userId)
  {
    if events != [] {
      var init, last := events[..|events| - 1], events[|events| - 1];
      DiskTokenSince(d, userId, s, init);
      GoneStep(d, userId, Runs.Run(Next(d), s, init), last);
    }
  }

  /** What a restart followed by an answered restore makes of a state without a session. */
  lemma BackIff(s: State, userId: Text, password: Bytes, response: RefreshResponse, w: World)
    requires s.vault.saved.Some? && s.vault.saved.value.password == password != []
    ensures
      var back := RestoreStep(RestartStep(s, password), Some(response), w).0;
      (back.context.Some? && back.context.value.userId == userId) <==>
        DiskToken(s.vault, userId).Some? && Active(s.accounts).Some? && Active(s.accounts).value.userId == userId
  {
    RestartToken(s, password, userId);
    if Active(s.accounts).Some? {
      RestartToken(s, password, Active(s.accounts).value.userId);
    }
  }

  /** Exactly when a restart undoes a logout: the token was on disk, neither the logout nor
      anything after it wrote the vault's file, and the account that is then active is the
      logged-out user's. */
  lemma RestartUndoesLogoutIff(d: Device, s: State, serverOk: bool, saveOk: bool, writeOk: bool, events: seq<Event>,
                               password: Bytes, response: RefreshResponse, w: World)
    requires s.context.Some? && Active(s.accounts).Some?
    requires AllStayOut(LoggedOut(s), events) && NoRestart(events)
    requires
      var t := Runs.Run(Next(d), LogoutStep(s, serverOk, saveOk, writeOk).0, events);
      t.vault.saved.Some? && t.vault.saved.value.password == password != []
    ensures
      var out := LogoutStep(s, serverOk, saveOk, writeOk).0;
      var t := Runs.Run(Next(d), out, events);
      var back := RestoreStep(RestartStep(t, password), Some(response), w).0;
      (back.context.Some? && back.context.value.userId == LoggedOut(s)) <==>
        && DiskToken(s.vault, LoggedOut(s)).Some?
        && !WroteVault(s, Logout(serverOk, saveOk, writeOk)) && !WroteSince(d, out, events)
        && Active(t.accounts).Some? && Active(t.accounts).value.userId == LoggedOut(s)
  {
    var out := LogoutStep(s, serverOk, saveOk, writeOk).0;
    LogoutGone(s, serverOk, saveOk, writeOk);
    DiskTokenSince(d, LoggedOut(s), out, events);
    BackIff(Runs.Run(Next(d), out, events), LoggedOut(s), password, response, w);
  }

  /** In particular, when nothing of a logout could be stored, a restart and an answered restore
      bring its user back. */
  lemma UnstoredLogoutUndone(s: State, serverOk: bool, password: Bytes, response: RefreshResponse, w: World)
    requires s.context.Some? && Active(s.accounts).Some? && DiskToken(s.vault, LoggedOut(s)).Some?
    requires s.vault.saved.value.password == password != []
    ensures
      var out := LogoutStep(s, serverOk, false, false).0;
      var back := RestoreStep(RestartStep(out, password), Some(response), w).0;
      out.context.None? && back.context.Some? && back.context.value.userId == LoggedOut(s)
  {
    LogoutGone(s, serverOk, false, false);
    BackIff(LogoutStep(s, serverOk, false, false).0, LoggedOut(s), password, response, w);
  }

  /** A logout goes by the active account: it forgets the session's own token exactly when that
      account is the session's user's. */
  lemma LogoutForgetsOwnTokenIff(s: State, serverOk: bool, saveOk: bool, writeOk: bool)
    requires s.context.Some? && Token(s.vault, s.context.value.userId).Some?
    ensures
      Token(LogoutStep(s, serverOk, saveOk, writeOk).0.vault, s.context.value.userId) == None <==>
        Active(s.accounts).Some? && LoggedOut(s) == s.context.value.userId
  {
    if Active(s.accounts).Some? {
      RemoveEffect(s.vault, LoggedOut(s), saveOk, s.context.value.userId);
    }
  }

  /** A second user's login whose account row could not be stored breaks that: the logout then
      forgets the first user's token and keeps the second's. */
  lemma LogoutForgetsWrongToken(d: Device, s: State, login: Event, serverOk: bool, saveOk: bool, writeOk: bool)
    requires s.vault.session.Some? && Active(s.accounts).Some?
    requires login.Login? && SignIn(login).Some? && KeyNames(login.keys.writes) && !login.w.writeOk
    requires SignIn(login).value.userId != LoggedOut(s) && SignIn(login).value.refreshToken != []
    ensures
      var inside := Step(d, s, login);
      var out := LogoutStep(inside, serverOk, saveOk, writeOk).0;
      && inside.context.Some? && inside.context.value.userId == SignIn(login).value.userId
      && Token(out.vault, LoggedOut(s)) == None
      && Token(out.vault, SignIn(login).value.userId) == Some(SignIn(login).value.refreshToken)
  {
    var userId := SignIn(login).value.userId;
    EnteringEvent(d, s, login, userId);
    var inside := Step(d, s, login);
    RemoveEffect(inside.vault, LoggedOut(s), saveOk, userId);
    RemoveEffect(inside.vault, LoggedOut(s), saveOk, LoggedOut(s));
  }
}
