/** The RocksDB database as the leaderboard sees it: its entries in key order, a write
    batch applied in order, and the descending scan of `handleGetLeaderboard`. */
module LeaderboardStore {
  import opened JavaInts
  import opened Wrappers
  import opened Messages
  import opened ScoreKeys

  datatype Entry = Entry(key: string, value: ScoreSubmission)

  /** RocksDB iterates its keys in strictly increasing bytewise order. */
  predicate SortedStore(st: seq<Entry>)
  {
    forall i, j :: 0 <= i < j < |st| ==> Less(st[i].key, st[j].key)
  }

  /** `db.get(key)`. */
  function Get(st: seq<Entry>, k: string): Option<ScoreSubmission>
  {
    if st == [] then None else if st[0].key == k then Some(st[0].value) else Get(st[1..], k)
  }

  /** A value `get` returns is stored under that key. */
  lemma {:induction false} GetSome(st: seq<Entry>, k: string, v: ScoreSubmission)
    requires Get(st, k) == Some(v)
    ensures exists i :: 0 <= i < |st| && st[i] == Entry(k, v)
    decreases |st|
  {
    if st[0].key != k {
      GetSome(st[1..], k, v);
      var i :| 0 <= i < |st[1..]| && st[1..][i] == Entry(k, v);
      assert st[i + 1] == Entry(k, v);
    }
  }

  /** In a sorted store, `get` of a stored key returns the value stored with it. */
  lemma {:induction false} SortedGet(st: seq<Entry>, i: nat)
    requires SortedStore(st) && i < |st|
    ensures Get(st, st[i].key) == Some(st[i].value)
    decreases i
  {
    if i > 0 {
      LessIrreflexive(st[i].key);
      assert st[0].key != st[i].key;
      assert st[1..][i - 1] == st[i];
      SortedGet(st[1..], i - 1);
    }
  }

  /** One `put` of a batch: it replaces the value under an existing key, or inserts the
      key at its place in the order. */
  function StorePut(st: seq<Entry>, k: string, v: ScoreSubmission): seq<Entry>
  {
    if st == [] then [Entry(k, v)]
    else if st[0].key == k then [Entry(k, v)] + st[1..]
    else if Less(k, st[0].key) then [Entry(k, v)] + st
    else [st[0]] + StorePut(st[1..], k, v)
  }

  /** After the put, the key holds the new value and every other key what it held. */
  lemma {:induction false} StorePutGet(st: seq<Entry>, k: string, v: ScoreSubmission, k': string)
    ensures Get(StorePut(st, k, v), k') == if k' == k then Some(v) else Get(st, k')
    decreases |st|
  {
    if st != [] && st[0].key != k && !Less(k, st[0].key) {
      StorePutGet(st[1..], k, v, k');
    }
  }

  /** The put keeps the keys sorted. */
  lemma {:induction false} StorePutSorted(st: seq<Entry>, k: string, v: ScoreSubmission)
    requires SortedStore(st)
    ensures SortedStore(StorePut(st, k, v))
    ensures StorePut(st, k, v)[0].key == k || (st != [] && StorePut(st, k, v)[0].key == st[0].key)
    decreases |st|
  {
    if st != [] && st[0].key != k && !Less(k, st[0].key) {
      StorePutSorted(st[1..], k, v);
      var r := StorePut(st[1..], k, v);
      LessTotal(k, st[0].key);
      forall j | 0 < j < |r| + 1
        ensures Less(st[0].key, ([st[0]] + r)[j].key)
      {
        if j > 1 {
          LessTransitive(st[0].key, r[0].key, r[j - 1].key);
        }
      }
    } else if st != [] && Less(k, st[0].key) {
      forall j | 0 < j < |st| + 1
        ensures Less(k, ([Entry(k, v)] + st)[j].key)
      {
        if j > 1 {
          LessTransitive(k, st[0].key, st[j - 1].key);
        }
      }
    }
  }

  /** `db.write(batch)`: the puts in order. */
  function ApplyBatch(st: seq<Entry>, batch: seq<Entry>): seq<Entry>
    decreases |batch|
  {
    if batch == [] then st else ApplyBatch(StorePut(st, batch[0].key, batch[0].value), batch[1..])
  }

  predicate InBatch(batch: seq<Entry>, k: string)
  {
    exists i :: 0 <= i < |batch| && batch[i].key == k
  }

  /** The value the batch writes last under k. */
  function LastFor(batch: seq<Entry>, k: string): ScoreSubmission
    requires InBatch(batch, k)
    decreases |batch|
  {
    if InBatch(batch[1..], k) then LastFor(batch[1..], k)
    else
      assert batch[0].key == k;
      batch[0].value
  }

  /** After the batch, a key it writes holds its last value; every other key is as it
      was. */
  lemma {:induction false} ApplyBatchGet(st: seq<Entry>, batch: seq<Entry>, k: string)
    ensures Get(ApplyBatch(st, batch), k) == if InBatch(batch, k) then Some(LastFor(batch, k)) else Get(st, k)
    decreases |batch|
  {
    if batch != [] {
      var e := batch[0];
      StorePutGet(st, e.key, e.value, k);
      ApplyBatchGet(StorePut(st, e.key, e.value), batch[1..], k);
      if !InBatch(batch[1..], k) && e.key != k {
        assert !InBatch(batch, k) by {
          forall i | 0 <= i < |batch|
            ensures batch[i].key != k
          {
            if i > 0 {
              assert batch[i] == batch[1..][i - 1];
            }
          }
        }
      }
      if InBatch(batch[1..], k) {
        var i :| 0 <= i < |batch[1..]| && batch[1..][i].key == k;
        assert batch[i + 1].key == k;
      }
    }
  }

  /** The batch keeps the keys sorted. */
  lemma {:induction false} ApplyBatchSorted(st: seq<Entry>, batch: seq<Entry>)
    requires SortedStore(st)
    ensures SortedStore(ApplyBatch(st, batch))
    decreases |batch|
  {
    if batch != [] {
      StorePutSorted(st, batch[0].key, batch[0].value);
      ApplyBatchSorted(StorePut(st, batch[0].key, batch[0].value), batch[1..]);
    }
  }

  /** A concatenated batch writes the keys either part writes. */
  lemma InBatchConcat(a: seq<Entry>, b: seq<Entry>, k: string)
    ensures InBatch(a + b, k) <==> InBatch(a, k) || InBatch(b, k)
  {
    if InBatch(a + b, k) {
      var i :| 0 <= i < |a + b| && (a + b)[i].key == k;
      if i >= |a| {
        assert b[i - |a|].key == k;
      }
    }
    if InBatch(b, k) {
      var j :| 0 <= j < |b| && b[j].key == k;
      assert (a + b)[|a| + j].key == k;
    }
    if InBatch(a, k) {
      var j :| 0 <= j < |a| && a[j].key == k;
      assert (a + b)[j].key == k;
    }
  }

  predicate IsScoreKey(k: string)
  {
    |k| >= |ScorePrefix| && k[..|ScorePrefix|] == ScorePrefix
  }

  /** The positions `handleGetLeaderboard` reads, from the last key down while fewer
      than `limit` results are collected, keeping those with the "score:" prefix: at
      most `limit`, all below n, all under score keys, strictly decreasing. */
  function ScanFrom(st: seq<Entry>, n: nat, limit: int): (r: seq<nat>)
    requires n <= |st|
    ensures |r| <= Max0(limit)
    ensures forall m :: 0 <= m < |r| ==> r[m] < n && IsScoreKey(st[r[m]].key)
    ensures forall m, m' :: 0 <= m < m' < |r| ==> r[m] > r[m']
    decreases n
  {
    if n == 0 || limit <= 0 then []
    else if IsScoreKey(st[n - 1].key) then [n - 1] + ScanFrom(st, n - 1, limit - 1)
    else ScanFrom(st, n - 1, limit)
  }

  /** The scan misses no score key: it reads every one when it stops short of the
      limit, and otherwise every one above the last it kept. */
  lemma {:induction false} ScanComplete(st: seq<Entry>, n: nat, limit: int, j: nat)
    requires n <= |st| && j < n && IsScoreKey(st[j].key)
    requires var r := ScanFrom(st, n, limit); |r| < limit || (r != [] && j > r[|r| - 1])
    ensures j in ScanFrom(st, n, limit)
    decreases n
  {
    var r := ScanFrom(st, n, limit);
    if j < n - 1 {
      if IsScoreKey(st[n - 1].key) {
        var rest := ScanFrom(st, n - 1, limit - 1);
        assert r == [n - 1] + rest;
        assert |rest| < limit - 1 || (rest != [] && j > rest[|rest| - 1]);
        ScanComplete(st, n - 1, limit - 1, j);
      } else {
        ScanComplete(st, n - 1, limit, j);
      }
    }
  }

  /** On a sorted store the results come in strictly descending key order. */
  lemma ScanDescendingKeys(st: seq<Entry>, limit: int, m: nat, m': nat)
    requires SortedStore(st)
    requires m < m' < |ScanFrom(st, |st|, limit)|
    ensures Less(st[ScanFrom(st, |st|, limit)[m']].key, st[ScanFrom(st, |st|, limit)[m]].key)
  {
  }
}
