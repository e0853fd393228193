/** The sign-in service object over a vault, an accounts repository and the network's bearer
    token. */
module AuthServices {
  import opened ByteStrings
  import opened Primitives
  import opened Accounts
  import opened AuthSteps
  import opened Vaults
  import DM = DurableMap

  class NetworkAccess {
    var bearerToken: Text

    constructor ()
      ensures bearerToken == []
    {
      bearerToken := [];
    }

    method SetBearerToken(token: Text)
      modifies this
      ensures bearerToken == token
    {
      bearerToken := token;
    }
  }

  /** One save of the vault: what the random source returns, and whether the file is committed. */
  datatype Saving = Saving(nonceDraw: Bytes, commitOk: bool) {
    predicate Valid() {
      nonceDraw == [] || |nonceDraw| == XNONCE_BYTES
    }
    predicate Ok() {
      nonceDraw != [] && commitOk
    }
  }

  datatype KeyStore = KeyStore(name: Text, value: Bytes, saving: Saving)

  function Writes(stores: seq<KeyStore>): (ws: seq<Write>)
    ensures |ws| == |stores|
  {
    seq(|stores|, i requires 0 <= i < |stores| => Write(stores[i].name, stores[i].value, stores[i].saving.Ok()))
  }

  predicate ValidStores(stores: seq<KeyStore>) {
    forall i :: 0 <= i < |stores| ==> stores[i].saving.Valid()
  }

  class AuthService {
    const network: NetworkAccess
    const accounts: AccountsRepository
    const vault: VaultService
    const device: Device
    var context: Option<Context>

    constructor (network: NetworkAccess, accounts: AccountsRepository, vault: VaultService, device: Device)
      ensures this.network == network && this.accounts == accounts && this.vault == vault && this.device == device
      ensures context == None
    {
      this.network, this.accounts, this.vault, this.device, context := network, accounts, vault, device, None;
    }

    ghost function Abstract(): State
      reads this, network, accounts, vault
    {
      State(context, network.bearerToken, vault.Abstract(), accounts.rows)
    }

    /** The stores made by the identity key store and the prekey manager. */
    method StoreKeys(stores: seq<KeyStore>)
      requires vault.Valid() && ValidStores(stores)
      modifies vault
      ensures vault.Valid()
      ensures vault.Abstract() == StoreAll(old(vault.Abstract()), Writes(stores))
    {
      for i := 0 to |stores|
        invariant vault.Valid()
        invariant vault.Abstract() == StoreAll(old(vault.Abstract()), Writes(stores)[..i])
      {
        assert Writes(stores)[..i + 1][..i] == Writes(stores)[..i];
        var s := stores[i];
        var _ := vault.StoreSecret(s.name, s.value, s.saving.nonceDraw, s.saving.commitOk);
      }
      assert Writes(stores)[..|stores|] == Writes(stores);
    }

    method PersistSession(username: Text, response: SessionResponse, saving: Saving,
                          accountId: Text, now: int, writeOk: bool)
      returns (ok: bool)
      requires vault.Valid() && saving.Valid()
      modifies this, network, accounts, vault
      ensures vault.Valid()
      ensures (Abstract(), ok) ==
              PersistStep(device, old(Abstract()), username, response, World(saving.Ok(), accountId, now, writeOk))
    {
      network.SetBearerToken(response.accessToken);
      context := Some(Context(response.userId, username, device.deviceId, response.accessToken, response.refreshToken));
      var stored :=
        vault.StoreSecret(TokenName(response.userId), response.refreshToken, saving.nonceDraw, saving.commitOk);
      if !stored {
        return false;
      }
      var account := Account(
        accountId, device.serverId, response.userId, username, device.deviceId, response.refreshToken, now);
      ok := accounts.UpsertAccount(account, writeOk);
    }

    method RegisterUser(username: Text, password: Text, stores: seq<KeyStore>, keysOk: bool, wrapOk: bool,
                        response: Option<SessionResponse>, saving: Saving, accountId: Text, now: int, writeOk: bool)
      returns (ok: bool)
      requires vault.Valid() && ValidStores(stores) && saving.Valid()
      modifies this, network, accounts, vault
      ensures vault.Valid()
      ensures (Abstract(), ok) ==
              RegisterStep(device, old(Abstract()), username, password, Keys(Writes(stores), keysOk), wrapOk, response,
                           World(saving.Ok(), accountId, now, writeOk))
    {
      if username == [] || password == [] {
        return false;
      }
      StoreKeys(stores);
      if !keysOk || !wrapOk || response.None? {
        return false;
      }
      ok := PersistSession(username, response.value, saving, accountId, now, writeOk);
    }

    method LoginUser(username: Text, password: Text, stores: seq<KeyStore>, keysOk: bool,
                     response: Option<SessionResponse>, saving: Saving, accountId: Text, now: int, writeOk: bool)
      returns (ok: bool)
      requires vault.Valid() && ValidStores(stores) && saving.Valid()
      modifies this, network, accounts, vault
      ensures vault.Valid()
      ensures (Abstract(), ok) ==
              LoginStep(device, old(Abstract()), username, password, Keys(Writes(stores), keysOk), response,
                        World(saving.Ok(), accountId, now, writeOk))
    {
      if username == [] || password == [] {
        return false;
      }
      StoreKeys(stores);
      if response.None? {
        return false;
      }
      ok := PersistSession(username, response.value, saving, accountId, now, writeOk);
    }

    method RestoreSession(response: Option<RefreshResponse>, saving: Saving, now: int, writeOk: bool) returns (ok: bool)
      requires vault.Valid() && saving.Valid()
      modifies this, network, accounts, vault
      ensures vault.Valid()
      ensures (Abstract(), ok) == RestoreStep(old(Abstract()), response, World(saving.Ok(), [], now, writeOk))
    {
      var account := accounts.ActiveAccount();
      if account.None? {
        return false;
      }
      var a := account.value;
      var refreshToken := vault.LoadSecret(TokenName(a.userId));
      if refreshToken.None? || response.None? {
        return false;
      }
      var r := response.value;
      network.SetBearerToken(r.accessToken);
      context := Some(Context(a.userId, a.username, a.activeDeviceId, r.accessToken, r.refreshToken));
      var _ := vault.StoreSecret(TokenName(a.userId), r.refreshToken, saving.nonceDraw, saving.commitOk);
      ok := accounts.UpsertAccount(a.(refreshToken := r.refreshToken, lastLogin := now), writeOk);
    }

    method LogoutUser(serverOk: bool, saving: Saving, writeOk: bool) returns (ok: bool)
      requires vault.Valid() && saving.Valid()
      modifies this, network, accounts, vault
      ensures vault.Valid()
      ensures (Abstract(), ok) == LogoutStep(old(Abstract()), serverOk, saving.Ok(), writeOk)
    {
      if context.None? {
        return true;
      }
      var active := accounts.ActiveAccount();
      if active.Some? {
        var _ := vault.RemoveSecret(TokenName(active.value.userId), saving.nonceDraw, saving.commitOk);
        var _ := accounts.DeleteAccount(active.value.accountId, writeOk);
      }
      network.SetBearerToken([]);
      context := None;
      ok := serverOk;
    }
  }
}
