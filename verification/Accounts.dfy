/** The accounts table: unique account ids, replaced or appended by an upsert, and the account
    with the newest login as the active one. */
module Accounts {
  import opened ByteStrings

  datatype Account = Account(
    accountId: Text,
    serverId: Text,
    userId: Text,
    username: Text,
    activeDeviceId: Text,
    refreshToken: Bytes,
    lastLogin: int)

  function Upsert(rows: seq<Account>, a: Account): seq<Account> {
    if rows == [] then [a]
    else if rows[0].accountId == a.accountId then [a] + rows[1..]
    else [rows[0]] + Upsert(rows[1..], a)
  }

  function Delete(rows: seq<Account>, accountId: Text): seq<Account> {
    if rows == [] then []
    else if rows[0].accountId == accountId then Delete(rows[1..], accountId)
    else [rows[0]] + Delete(rows[1..], accountId)
  }

  /** ORDER BY last_login_ms DESC LIMIT 1; among equals the first row, which SQL leaves open. */
  function Active(rows: seq<Account>): (a: Option<Account>)
    ensures a.None? <==> rows == []
    ensures a.Some? ==> a.value in rows && forall b :: b in rows ==> b.lastLogin <= a.value.lastLogin
  {
    if rows == [] then None
    else
      var rest := Active(rows[1..]);
      if rest.Some? && rest.value.lastLogin > rows[0].lastLogin then rest else Some(rows[0])
  }

  lemma {:induction false} UpsertRows(rows: seq<Account>, a: Account)
    ensures a in Upsert(rows, a)
    ensures forall b :: b in Upsert(rows, a) ==> b == a || b in rows
  {
    if rows != [] && rows[0].accountId != a.accountId {
      UpsertRows(rows[1..], a);
    }
  }

  /** account_id is the table's primary key. */
  predicate UniqueIds(rows: seq<Account>) {
    forall i, j :: 0 <= i < j < |rows| ==> rows[i].accountId != rows[j].accountId
  }

  /** An upsert keeps every other account and every id unique. */
  lemma {:induction false} UpsertKeepsOthers(rows: seq<Account>, a: Account)
    requires UniqueIds(rows)
    ensures forall b :: b in Upsert(rows, a) <==> b == a || (b in rows && b.accountId != a.accountId)
    ensures UniqueIds(Upsert(rows, a))
  {
    if rows == [] {
    } else if rows[0].accountId == a.accountId {
      assert forall i :: 0 < i < |rows| ==> rows[i].accountId != a.accountId;
    } else {
      UpsertKeepsOthers(rows[1..], a);
      assert forall b :: b in rows <==> b == rows[0] || b in rows[1..];
      var rest := Upsert(rows[1..], a);
      forall i | 0 <= i < |rest|
        ensures rest[i].accountId != rows[0].accountId
      {
        assert rest[i] in rest;
      }
    }
  }

  lemma {:induction false} DeleteRows(rows: seq<Account>, accountId: Text)
    ensures forall b :: b in Delete(rows, accountId) <==> b in rows && b.accountId != accountId
  {
    if rows != [] {
      DeleteRows(rows[1..], accountId);
    }
  }

  /** After an upsert with a login newer than every stored one, that account is the active one. */
  lemma NewestBecomesActive(rows: seq<Account>, a: Account)
    requires forall b :: b in rows ==> b.lastLogin < a.lastLogin
    ensures Active(Upsert(rows, a)) == Some(a)
  {
    UpsertRows(rows, a);
  }

  lemma {:induction false} ActiveFrom(rows: seq<Account>, i: nat)
    requires i < |rows| && (forall j :: 0 <= j < i ==> rows[j].lastLogin < rows[i].lastLogin)
    requires forall j :: i <= j < |rows| ==> rows[j].lastLogin <= rows[i].lastLogin
    ensures Active(rows) == Some(rows[i])
  {
    if i > 0 {
      ActiveFrom(rows[1..], i - 1);
    } else if |rows| > 1 {
      assert Active(rows[1..]).value in rows[1..];
    }
  }

  class AccountsRepository {
    var rows: seq<Account>

    constructor (rows: seq<Account>)
      ensures this.rows == rows
    {
      this.rows := rows;
    }

    method UpsertAccount(a: Account, writeOk: bool) returns (ok: bool)
      modifies this
      ensures ok == writeOk && rows == if ok then Upsert(old(rows), a) else old(rows)
    {
      if writeOk {
        rows := Upsert(rows, a);
      }
      ok := writeOk;
    }

    method ActiveAccount() returns (a: Option<Account>)
      ensures a == Active(rows)
    {
      if |rows| == 0 {
        return None;
      }
      var best := 0;
      for i := 1 to |rows|
        invariant best < i
        invariant forall j :: 0 <= j < best ==> rows[j].lastLogin < rows[best].lastLogin
        invariant forall j :: best <= j < i ==> rows[j].lastLogin <= rows[best].lastLogin
      {
        if rows[i].lastLogin > rows[best].lastLogin {
          best := i;
        }
      }
      ActiveFrom(rows, best);
      a := Some(rows[best]);
    }

    method DeleteAccount(accountId: Text, writeOk: bool) returns (ok: bool)
      modifies this
      ensures ok == (accountId != [] && writeOk)
      ensures rows == if ok then Delete(old(rows), accountId) else old(rows)
    {
      ok := accountId != [] && writeOk;
      if ok {
        rows := Delete(rows, accountId);
      }
    }
  }
}
