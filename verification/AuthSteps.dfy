/** The signed-in session as a state machine over the context, the bearer token, the vault and
    the accounts table. */
module AuthSteps {
  import opened ByteStrings
  import opened Accounts
  import DM = DurableMap
  import Runs

  datatype Context = Context(userId: Text, username: Text, deviceId: Text, accessToken: Text, refreshToken: Text)

  datatype State = State(context: Option<Context>, bearer: Text, vault: DM.Vault, accounts: seq<Account>)

  /** The server's answers. */
  datatype SessionResponse = SessionResponse(userId: Text, accessToken: Text, refreshToken: Text)
  datatype RefreshResponse = RefreshResponse(accessToken: Text, refreshToken: Text)

  /** A secret stored on the way: identity keys and a rotated signed prekey. */
  datatype Write = Write(name: Text, value: Bytes, saveOk: bool)

  /** The key material step of a registration or login, and whether it succeeded. */
  datatype Keys = Keys(writes: seq<Write>, ok: bool)

  /** What the outside world contributes to storing a session. */
  datatype World = World(saveOk: bool, accountId: Text, now: int, writeOk: bool)

  datatype Device = Device(serverId: Text, deviceId: Text)

  const TOKEN_PREFIX: Text := Ascii("refresh_token/")

  function TokenName(userId: Text): Text {
    TOKEN_PREFIX + userId
  }

  function StoreAll(v: DM.Vault, writes: seq<Write>): DM.Vault {
    if writes == [] then v
    else
      var w := writes[|writes| - 1];
      DM.StoreStep(StoreAll(v, writes[..|writes| - 1]), w.name, w.value, w.saveOk).0
  }

  /** `persistSession`: token and context first, so they stay set when storing fails. */
  function PersistStep(d: Device, s: State, username: Text, r: SessionResponse, w: World): (State, bool) {
    var context := Context(r.userId, username, d.deviceId, r.accessToken, r.refreshToken);
    var (vault, stored) := DM.StoreStep(s.vault, TokenName(r.userId), r.refreshToken, w.saveOk);
    var s1 := State(Some(context), r.accessToken, vault, s.accounts);
    if !stored then (s1, false)
    else
      var account := Account(w.accountId, d.serverId, r.userId, username, d.deviceId, r.refreshToken, w.now);
      (s1.(accounts := if w.writeOk then Upsert(s.accounts, account) else s.accounts), w.writeOk)
  }

  function RegisterStep(d: Device, s: State, username: Text, password: Text, keys: Keys, wrapOk: bool,
                        response: Option<SessionResponse>, w: World): (State, bool) {
    if username == [] || password == [] then (s, false)
    else
      var s1 := s.(vault := StoreAll(s.vault, keys.writes));
      if !keys.ok || !wrapOk || response.None? then (s1, false)
      else PersistStep(d, s1, username, response.value, w)
  }

  /** A login goes on without key material when that step fails. */
  function LoginStep(d: Device, s: State, username: Text, password: Text, keys: Keys,
                     response: Option<SessionResponse>, w: World): (State, bool) {
    if username == [] || password == [] then (s, false)
    else
      var s1 := s.(vault := StoreAll(s.vault, keys.writes));
      if response.None? then (s1, false) else PersistStep(d, s1, username, response.value, w)
  }

  function RestoreStep(s: State, response: Option<RefreshResponse>, w: World): (State, bool) {
    var account := Active(s.accounts);
    if account.None? || DM.Load(s.vault, TokenName(account.value.userId)).None? || response.None? then (s, false)
    else
      var a, r := account.value, response.value;
      var updated := a.(refreshToken := r.refreshToken, lastLogin := w.now);
      (State(Some(Context(a.userId, a.username, a.activeDeviceId, r.accessToken, r.refreshToken)),
             r.accessToken,
             DM.StoreStep(s.vault, TokenName(a.userId), r.refreshToken, w.saveOk).0,
             if w.writeOk then Upsert(s.accounts, updated) else s.accounts),
       w.writeOk)
  }

  function LogoutStep(s: State, serverOk: bool, saveOk: bool, writeOk: bool): (State, bool) {
    if s.context.None? then (s, true)
    else
      var active := Active(s.accounts);
      if active.None? then (s.(context := None, bearer := []), serverOk)
      else (State(None, [],
                  DM.RemoveStep(s.vault, TokenName(active.value.userId), saveOk).0,
                  if active.value.accountId != [] && writeOk then Delete(s.accounts, active.value.accountId)
                  else s.accounts),
            serverOk)
  }

  /** The application is closed and started again with the vault's password. */
  function RestartStep(s: State, password: Bytes): State {
    State(None, [], DM.UnlockStep(DM.LockStep(s.vault), password, DM.GOOD).0, s.accounts)
  }

  datatype Event =
    | Register(username: Text, password: Text, keys: Keys, wrapOk: bool, response: Option<SessionResponse>, w: World)
    | Login(username: Text, password: Text, keys: Keys, response: Option<SessionResponse>, w: World)
    | Restore(refreshed: Option<RefreshResponse>, w: World)
    | Logout(serverOk: bool, saveOk: bool, writeOk: bool)
    | Restart(vaultPassword: Bytes)

  function Step(d: Device, s: State, e: Event): State {
    match e
    case Register(username, password, keys, wrapOk, response, w) =>
      RegisterStep(d, s, username, password, keys, wrapOk, response, w).0
    case Login(username, password, keys, response, w) => LoginStep(d, s, username, password, keys, response, w).0
    case Restore(response, w) => RestoreStep(s, response, w).0
    case Logout(serverOk, saveOk, writeOk) => LogoutStep(s, serverOk, saveOk, writeOk).0
    case Restart(password) => RestartStep(s, password)
  }

  function Next(d: Device): (State, Event) -> State {
    (s, e) => Step(d, s, e)
  }
}
