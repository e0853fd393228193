/** The table of synchronised records as a fold of a change log. */
module SyncTable {
  import opened ByteStrings

  datatype Key = Key(collection: Text, recordId: Text)

  datatype Change = Change(key: Key, version: int, ciphertext: Text, deleted: bool)

  datatype Record = Record(version: int, ciphertext: Bytes, updatedAtMs: int, tombstone: bool)

  type Rows = map<Key, Record>

  /** A row without its local time stamp. */
  datatype Content = Content(version: int, ciphertext: Bytes, tombstone: bool)

  type Contents = map<Key, Content>

  function ContentsOf(rows: Rows): Contents {
    map k | k in rows :: Content(rows[k].version, rows[k].ciphertext, rows[k].tombstone)
  }

  function ContentOf(c: Change): Content {
    Content(c.version, c.ciphertext, c.deleted)
  }

  function ApplyAll(t: Contents, changes: seq<Change>): Contents {
    if changes == [] then t
    else
      var last := changes[|changes| - 1];
      ApplyAll(t, changes[..|changes| - 1])[last.key := ContentOf(last)]
  }

  /** Index k is the last change to its key. */
  predicate IsLast(changes: seq<Change>, k: int) {
    0 <= k < |changes| && forall j :: k < j < |changes| ==> changes[j].key != changes[k].key
  }

  predicate Touches(changes: seq<Change>, key: Key) {
    exists k :: 0 <= k < |changes| && changes[k].key == key
  }

  lemma {:induction false} LastExists(changes: seq<Change>, key: Key) returns (k: nat)
    requires Touches(changes, key)
    ensures IsLast(changes, k) && changes[k].key == key
  {
    var n := |changes| - 1;
    if changes[n].key == key {
      k := n;
    } else {
      var i :| 0 <= i < |changes| && changes[i].key == key;
      assert changes[..n][i].key == key;
      k := LastExists(changes[..n], key);
      assert forall j :: k < j < n ==> changes[j] == changes[..n][j];
    }
  }

  lemma {:induction false} LastWins(t: Contents, changes: seq<Change>, k: nat)
    requires IsLast(changes, k)
    ensures changes[k].key in ApplyAll(t, changes) && ApplyAll(t, changes)[changes[k].key] == ContentOf(changes[k])
  {
    var n := |changes| - 1;
    if k < n {
      assert forall j :: k <= j < n ==> changes[..n][j] == changes[j];
      LastWins(t, changes[..n], k);
    }
  }

  lemma {:induction false} UntouchedKept(t: Contents, changes: seq<Change>, key: Key)
    requires !Touches(changes, key)
    ensures key in ApplyAll(t, changes) <==> key in t
    ensures key in t ==> ApplyAll(t, changes)[key] == t[key]
  {
    if changes != [] {
      var n := |changes| - 1;
      assert forall j :: 0 <= j < n ==> changes[..n][j] == changes[j];
      UntouchedKept(t, changes[..n], key);
    }
  }

  /** Every key of the log ends up as its last occurrence says; every other row is unchanged. */
  lemma ApplyAllRows(t: Contents, changes: seq<Change>)
    ensures forall k :: IsLast(changes, k) ==>
              changes[k].key in ApplyAll(t, changes) && ApplyAll(t, changes)[changes[k].key] == ContentOf(changes[k])
    ensures forall key :: !Touches(changes, key) ==>
              (key in ApplyAll(t, changes) <==> key in t) && (key in t ==> ApplyAll(t, changes)[key] == t[key])
  {
    forall k | IsLast(changes, k)
      ensures changes[k].key in ApplyAll(t, changes) && ApplyAll(t, changes)[changes[k].key] == ContentOf(changes[k])
    {
      LastWins(t, changes, k);
    }
    forall key | !Touches(changes, key)
      ensures (key in ApplyAll(t, changes) <==> key in t) && (key in t ==> ApplyAll(t, changes)[key] == t[key])
    {
      UntouchedKept(t, changes, key);
    }
  }

  /** A log absorbs whatever touched only its own keys before. */
  lemma LogAbsorbs(t: Contents, earlier: seq<Change>, log: seq<Change>)
    requires forall i :: 0 <= i < |earlier| ==> Touches(log, earlier[i].key)
    ensures ApplyAll(ApplyAll(t, earlier), log) == ApplyAll(t, log)
  {
    var t1 := ApplyAll(t, earlier);
    var a, b := ApplyAll(t1, log), ApplyAll(t, log);
    ApplyAllRows(t, earlier);
    ApplyAllRows(t1, log);
    ApplyAllRows(t, log);
    forall key | key in a || key in b
      ensures key in a && key in b && a[key] == b[key]
    {
      if Touches(log, key) {
        var k := LastExists(log, key);
      } else {
        assert !Touches(earlier, key);
      }
    }
  }

  function ApplyEach(t: Contents, attempts: seq<seq<Change>>): Contents {
    if attempts == [] then t else ApplyAll(ApplyEach(t, attempts[..|attempts| - 1]), attempts[|attempts| - 1])
  }

  /** Any number of pulls that stopped part-way, each served from the log as far as it went at
      the time, followed by one complete pull, leave what one complete pull leaves. */
  lemma {:induction false} PullsConverge(t: Contents, attempts: seq<seq<Change>>, log: seq<Change>)
    requires forall i :: 0 <= i < |attempts| ==> attempts[i] <= log
    ensures ApplyAll(ApplyEach(t, attempts), log) == ApplyAll(t, log)
  {
    if attempts != [] {
      var n := |attempts| - 1;
      var last := attempts[n];
      PullsConverge(t, attempts[..n], log);
      assert last <= log;
      forall i | 0 <= i < |last|
        ensures Touches(log, last[i].key)
      {
        assert log[i] == last[i];
      }
      LogAbsorbs(ApplyEach(t, attempts[..n]), last, log);
    }
  }

  /** Each row the first k changes write is already the one the whole log leaves. */
  ghost predicate WrittenForGood(log: seq<Change>, k: nat)
    requires k <= |log|
  {
    forall i, j :: IsLast(log[..k], i) && IsLast(log, j) && log[i].key == log[j].key ==>
      ContentOf(log[i]) == ContentOf(log[j])
  }

  lemma RepullHarmless(t: Contents, log: seq<Change>, k: nat)
    requires k <= |log| && WrittenForGood(log, k)
    ensures ApplyAll(ApplyAll(t, log), log[..k]) == ApplyAll(t, log)
  {
    var done, p := ApplyAll(t, log), log[..k];
    var again := ApplyAll(done, p);
    ApplyAllRows(t, log);
    ApplyAllRows(done, p);
    forall key | key in again || key in done
      ensures key in again && key in done && again[key] == done[key]
    {
      if Touches(p, key) {
        var i := LastExists(p, key);
        assert log[i] == p[i];
        assert Touches(log, key);
        var j := LastExists(log, key);
      }
    }
  }

  /** A repeated pull that stops after k changes leaves a synchronised table as it was exactly
      when each row it wrote was already written for good. */
  lemma PartialRepullHarmlessIff(t: Contents, log: seq<Change>, k: nat)
    requires k <= |log|
    ensures ApplyAll(ApplyAll(t, log), log[..k]) == ApplyAll(t, log) <==> WrittenForGood(log, k)
  {
    if WrittenForGood(log, k) {
      RepullHarmless(t, log, k);
    } else {
      var done, p := ApplyAll(t, log), log[..k];
      ApplyAllRows(t, log);
      ApplyAllRows(done, p);
      var i, j :| IsLast(p, i) && IsLast(log, j) && log[i].key == log[j].key && ContentOf(log[i]) != ContentOf(log[j]);
      assert ApplyAll(done, p)[p[i].key] == ContentOf(p[i]) && p[i] == log[i];
      assert done[log[j].key] == ContentOf(log[j]);
    }
  }

  /** So a row can go back to an older version for a while. */
  lemma RepullCanRegress(key: Key, t: Contents)
    ensures
      var log := [Change(key, 1, [65], false), Change(key, 2, [66], false)];
      && ApplyAll(t, log)[key].version == 2
      && ApplyAll(ApplyAll(t, log), log[..1])[key].version == 1
  {
    var log := [Change(key, 1, [65], false), Change(key, 2, [66], false)];
    ApplyAllRows(t, log);
    assert IsLast(log, 1);
    ApplyAllRows(ApplyAll(t, log), log[..1]);
    assert IsLast(log[..1], 0);
  }
}
