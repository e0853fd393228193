/** Pulling a collection: page after page into the record table. */
module Syncing {
  import opened ByteStrings
  import opened SyncTable

  datatype Page = Page(records: seq<Change>, nextCursor: Text, hasMore: bool)

  /** The server's side: its answer to the i-th request of a pull for the page after a cursor
      (None for a failed request), and the place in its log a cursor stands for. */
  datatype Server = Server(answer: (Text, nat) -> Option<Page>, position: Text -> nat)
  {
    /** The server serves this log with strictly advancing cursors, in pages of any size. The
        cursor of the last page means nothing. */
    ghost predicate Serves(log: seq<Change>) {
      && position([]) == 0
      && forall cursor, i {:trigger answer(cursor, i)} ::
           answer(cursor, i).Some? ==>
             var from, page := position(cursor), answer(cursor, i).value;
             && from + |page.records| <= |log|
             && page.records == log[from..from + |page.records|]
             && (page.hasMore ==> |page.records| > 0 && position(page.nextCursor) == from + |page.records|)
             && (!page.hasMore ==> from + |page.records| == |log|)
    }
  }

  /** The outside world during a pull: which writes succeed, and the clock. */
  datatype Environment = Environment(writeOk: nat -> bool, now: nat -> int)

  class SyncRepository {
    var rows: Rows

    constructor (rows: Rows)
      ensures this.rows == rows
    {
      this.rows := rows;
    }

    method UpsertRecord(change: Change, updatedAtMs: int, writeOk: bool) returns (ok: bool)
      modifies this
      ensures ok == writeOk
      ensures
        var row := Record(change.version, change.ciphertext, updatedAtMs, change.deleted);
        rows == if ok then old(rows)[change.key := row] else old(rows)
    {
      if writeOk {
        rows := rows[change.key := Record(change.version, change.ciphertext, updatedAtMs, change.deleted)];
      }
      ok := writeOk;
    }
  }

  /** Every row the first n changes wrote carries the time of its last write. */
  ghost predicate Stamped(rows: Rows, log: seq<Change>, n: nat, now: nat -> int)
    requires n <= |log|
  {
    forall k: nat :: IsLast(log[..n], k) ==> log[k].key in rows && rows[log[k].key].updatedAtMs == now(k)
  }

  lemma StampedMore(rows: Rows, log: seq<Change>, n: nat, now: nat -> int)
    requires n < |log| && Stamped(rows, log, n, now)
    ensures
      var row := Record(log[n].version, log[n].ciphertext, now(n), log[n].deleted);
      Stamped(rows[log[n].key := row], log, n + 1, now)
  {
    forall k: nat | IsLast(log[..n + 1], k) && k < n
      ensures IsLast(log[..n], k) && log[k].key != log[n].key
    {
      assert log[..n + 1][n] == log[n] && log[..n + 1][k] == log[k];
      assert forall j :: 0 <= j < n ==> log[..n + 1][j] == log[..n][j];
    }
  }

  predicate OthersKept(before: Rows, rows: Rows, log: seq<Change>) {
    forall key :: key in before && !Touches(log, key) ==> key in rows && rows[key] == before[key]
  }

  /** The first n changes of the log, and nothing else, have been applied: in content the table is
      their fold, rows of other keys are as they were, and each row written carries the time of
      its last write. */
  ghost predicate Pulled(before: Rows, rows: Rows, log: seq<Change>, n: nat, now: nat -> int)
    requires n <= |log|
  {
    && ContentsOf(rows) == ApplyAll(ContentsOf(before), log[..n])
    && OthersKept(before, rows, log) && Stamped(rows, log, n, now)
  }

  lemma OneMore(before: Rows, rows: Rows, log: seq<Change>, n: nat, now: nat -> int)
    requires n < |log| && Pulled(before, rows, log, n, now)
    ensures
      var row := Record(log[n].version, log[n].ciphertext, now(n), log[n].deleted);
      Pulled(before, rows[log[n].key := row], log, n + 1, now)
  {
    assert log[..n + 1][..n] == log[..n];
    StampedMore(rows, log, n, now);
    assert Touches(log, log[n].key);
  }

  class SyncService {
    const server: Server
    const repository: SyncRepository

    constructor (server: Server, repository: SyncRepository)
      ensures this.server == server && this.repository == repository
    {
      this.server := server;
      this.repository := repository;
    }

    /** However the pages are cut and wherever it fails, a pull applies a prefix of the log, and
        the whole log if it returns true; it fails only if a request or a write does. Each row is
        stamped with the time of its last write. */
    method PullCollection(env: Environment, ghost log: seq<Change>) returns (ok: bool, ghost applied: nat)
      requires server.Serves(log)
      modifies repository
      ensures applied <= |log| && (ok ==> applied == |log|)
      ensures Pulled(old(repository.rows), repository.rows, log, applied, env.now)
      ensures (forall cursor, i :: server.answer(cursor, i).Some?) && (forall i :: env.writeOk(i)) ==> ok
    {
      var cursor: Text := [];
      var request, write := 0, 0;
      applied := 0;
      while true
        invariant applied == server.position(cursor) <= |log|
        invariant write == applied && Pulled(old(repository.rows), repository.rows, log, applied, env.now)
        decreases |log| - applied
      {
        var changes := server.answer(cursor, request);
        if changes.None? {
          return false, applied;
        }
        ghost var start := applied;
        var records := changes.value.records;
        for i := 0 to |records|
          invariant applied == start + i
          invariant write == applied && Pulled(old(repository.rows), repository.rows, log, applied, env.now)
        {
          assert records[i] == log[applied];
          OneMore(old(repository.rows), repository.rows, log, applied, env.now);
          var stored := repository.UpsertRecord(records[i], env.now(write), env.writeOk(write));
          if !stored {
            return false, applied;
          }
          write, applied := write + 1, applied + 1;
        }
        cursor, request := changes.value.nextCursor, request + 1;
        if !changes.value.hasMore {
          break;
        }
      }
      return true, applied;
    }
  }
}
