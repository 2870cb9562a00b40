/** `DatabaseVerticle`: `save.score` buffers submissions, a periodic flush writes the buffer
    to RocksDB in one batch, and `get.leaderboard` scans the keys from the highest down.
    The clock, the per-entry outcome of serialising and putting, and the outcome of the
    batch write are parameters. */
module DatabaseVerticles {
  import opened JavaInts
  import opened Wrappers
  import opened Messages
  import opened ScoreKeys
  import opened LeaderboardBuffer
  import opened LeaderboardStore

  /** `String.format("score:%010d:%d:%s", totalScore, timestamp, username)`. */
  function FlushKey(s: ScoreSubmission): string
  {
    Key(TotalScore(s), s.timestamp, s.username)
  }

  /** The put the flush loop adds for one buffered entry, if its serialisation and put
      succeed. */
  function BatchItem(e: Buffered, putOk: ScoreSubmission -> bool): seq<Entry>
  {
    if putOk(e.score) then [Entry(FlushKey(e.score), e.score)] else []
  }

  /** The write batch built from the buffer, in buffer order. */
  function BatchOf(b: seq<Buffered>, putOk: ScoreSubmission -> bool): seq<Entry>
  {
    if b == [] then [] else BatchItem(b[0], putOk) + BatchOf(b[1..], putOk)
  }

  lemma {:induction false} BatchSnoc(b: seq<Buffered>, e: Buffered, putOk: ScoreSubmission -> bool)
    ensures BatchOf(b + [e], putOk) == BatchOf(b, putOk) + BatchItem(e, putOk)
    decreases |b|
  {
    if b == [] {
      assert [] + [e] == [e];
      assert BatchOf([e], putOk) == BatchItem(e, putOk) + BatchOf([], putOk);
    } else {
      assert (b + [e])[0] == b[0] && (b + [e])[1..] == b[1..] + [e];
      BatchSnoc(b[1..], e, putOk);
    }
  }

  /** Some entry the serialiser accepts flushes under k. */
  predicate Writes(b: seq<Buffered>, putOk: ScoreSubmission -> bool, k: string)
  {
    exists i :: 0 <= i < |b| && putOk(b[i].score) && FlushKey(b[i].score) == k
  }

  lemma WritesCons(b: seq<Buffered>, putOk: ScoreSubmission -> bool, k: string)
    requires b != []
    ensures Writes(b, putOk, k) <==> (putOk(b[0].score) && FlushKey(b[0].score) == k) || Writes(b[1..], putOk, k)
  {
    if Writes(b, putOk, k) {
      var i :| 0 <= i < |b| && putOk(b[i].score) && FlushKey(b[i].score) == k;
      if i > 0 {
        assert b[1..][i - 1] == b[i];
      }
    }
    if Writes(b[1..], putOk, k) {
      var i :| 0 <= i < |b[1..]| && putOk(b[1..][i].score) && FlushKey(b[1..][i].score) == k;
      assert b[i + 1] == b[1..][i];
    }
  }

  /** The batch puts exactly the keys of the buffered entries that serialise. */
  lemma {:induction false} BatchKeys(b: seq<Buffered>, putOk: ScoreSubmission -> bool, k: string)
    ensures InBatch(BatchOf(b, putOk), k) <==> Writes(b, putOk, k)
    decreases |b|
  {
    if b != [] {
      var item := BatchItem(b[0], putOk);
      BatchKeys(b[1..], putOk, k);
      InBatchConcat(item, BatchOf(b[1..], putOk), k);
      assert InBatch(item, k) <==> putOk(b[0].score) && FlushKey(b[0].score) == k by {
        if item != [] {
          assert item[0].key == FlushKey(b[0].score);
        }
      }
      WritesCons(b, putOk, k);
    }
  }

  /** Entries of a sorted buffer sit in different slots, so their keys differ. */
  lemma DistinctSlotsDistinctKeys(b: seq<Buffered>, i: nat, j: nat)
    requires Sorted(b) && i < j < |b|
    ensures FlushKey(b[i].score) != FlushKey(b[j].score)
  {
    var s, t := b[i].score, b[j].score;
    if FlushKey(s) == FlushKey(t) {
      KeyInjective(TotalScore(s), s.timestamp, s.username, TotalScore(t), t.timestamp, t.username);
      assert false;
    }
  }

  /** From a sorted buffer, the batch writes each entry that serialises last (and only)
      under its own key. */
  lemma {:induction false} BatchLastValue(b: seq<Buffered>, putOk: ScoreSubmission -> bool, i: nat)
    requires Sorted(b) && i < |b| && putOk(b[i].score)
    ensures InBatch(BatchOf(b, putOk), FlushKey(b[i].score))
    ensures LastFor(BatchOf(b, putOk), FlushKey(b[i].score)) == b[i].score
    decreases |b|
  {
    var k := FlushKey(b[i].score);
    var item, rest := BatchItem(b[0], putOk), BatchOf(b[1..], putOk);
    var batch := item + rest;
    assert BatchOf(b, putOk) == batch;
    if i == 0 {
      assert !Writes(b[1..], putOk, k) by {
        forall j | 0 <= j < |b[1..]|
          ensures FlushKey(b[1..][j].score) != k
        {
          DistinctSlotsDistinctKeys(b, 0, j + 1);
        }
      }
      BatchKeys(b[1..], putOk, k);
      assert batch[1..] == rest && batch[0] == Entry(k, b[0].score);
      assert LastFor(batch, k) == b[0].score;
    } else {
      assert b[1..][i - 1] == b[i];
      BatchLastValue(b[1..], putOk, i - 1);
      assert InBatch(rest, k) && LastFor(rest, k) == b[i].score;
      if item == [] {
        assert batch == rest;
      } else {
        assert batch[1..] == rest;
        assert LastFor(batch, k) == LastFor(rest, k);
      }
    }
  }

  /** The body of the flush loop for one entry: format the key, serialise the value and
      put both into the batch; a serialisation failure is logged and the entry skipped. */
  method PrepareEntry(e: Buffered, putOk: ScoreSubmission -> bool) returns (put: seq<Entry>)
    ensures put == BatchItem(e, putOk)
  {
    var s := e.score;
    var key := FlushKey(s);
    if putOk(s) {
      put := [Entry(key, s)];
    } else {
      put := [];
    }
  }

  /** The loop of `flushBuffer`: one put per entry whose value serialises, keyed by
      `FlushKey`, in buffer order. */
  method BuildBatch(entries: seq<Buffered>, putOk: ScoreSubmission -> bool) returns (batch: seq<Entry>)
    ensures batch == BatchOf(entries, putOk)
  {
    batch := [];
    for i := 0 to |entries|
      invariant batch == BatchOf(entries[..i], putOk)
    {
      assert entries[..i + 1] == entries[..i] + [entries[i]];
      var put := PrepareEntry(entries[i], putOk);
      BatchSnoc(entries[..i], entries[i], putOk);
      batch := batch + put;
    }
    assert entries[..|entries|] == entries;
  }

  /** The store and the buffer. */
  datatype DbState = DbState(store: seq<Entry>, buffer: seq<Buffered>)

  /** `flushBuffer`: nothing to do on an empty buffer; a successful batch write clears it;
      a failed one keeps store and buffer for the next tick. */
  function Flush(st: seq<Entry>, b: seq<Buffered>, putOk: ScoreSubmission -> bool, writeOk: bool): (r: DbState)
    ensures b == [] || !writeOk ==> r == DbState(st, b)
    ensures b != [] && writeOk ==> r.buffer == []
  {
    if b == [] then DbState(st, b)
    else if writeOk then DbState(ApplyBatch(st, BatchOf(b, putOk)), [])
    else DbState(st, b)
  }

  /** A successful flush stores every buffered entry that serialises under its key, leaves
      every key it does not write as it was, and keeps the store sorted. */
  lemma FlushStores(st: seq<Entry>, b: seq<Buffered>, putOk: ScoreSubmission -> bool)
    requires SortedStore(st) && Sorted(b) && b != []
    ensures var r := Flush(st, b, putOk, true);
      SortedStore(r.store) && r.buffer == [] &&
      (forall i :: 0 <= i < |b| && putOk(b[i].score) ==> Get(r.store, FlushKey(b[i].score)) == Some(b[i].score)) &&
      (forall k :: (forall i :: 0 <= i < |b| && putOk(b[i].score) ==> FlushKey(b[i].score) != k) ==>
         Get(r.store, k) == Get(st, k))
  {
    var batch := BatchOf(b, putOk);
    var r := Flush(st, b, putOk, true);
    ApplyBatchSorted(st, batch);
    forall i | 0 <= i < |b| && putOk(b[i].score)
      ensures Get(r.store, FlushKey(b[i].score)) == Some(b[i].score)
    {
      BatchLastValue(b, putOk, i);
      ApplyBatchGet(st, batch, FlushKey(b[i].score));
    }
    forall k | (forall i :: 0 <= i < |b| && putOk(b[i].score) ==> FlushKey(b[i].score) != k)
      ensures Get(r.store, k) == Get(st, k)
    {
      BatchKeys(b, putOk, k);
      ApplyBatchGet(st, batch, k);
    }
  }

  /** The JSON object of one leaderboard row; its total is recomputed from the stored
      wpm and streak. */
  datatype LeaderboardItem = LeaderboardItem(
    username: string, wpm: Int32, maxCombo: Int32, timestamp: int, totalScore: Int32)

  function ItemOf(s: ScoreSubmission): LeaderboardItem
  {
    LeaderboardItem(s.username, s.wpm, s.maxCombo, s.timestamp, TotalScore(s))
  }

  predicate InStore(st: seq<Entry>, idx: seq<nat>)
  {
    forall m :: 0 <= m < |idx| ==> idx[m] < |st|
  }

  function ItemsAt(st: seq<Entry>, idx: seq<nat>): seq<LeaderboardItem>
    requires InStore(st, idx)
  {
    seq(|idx|, m requires 0 <= m < |idx| => ItemOf(st[idx[m]].value))
  }

  lemma ItemsSnoc(st: seq<Entry>, idx: seq<nat>, i: nat)
    requires InStore(st, idx) && i < |st|
    ensures InStore(st, idx + [i]) && ItemsAt(st, idx + [i]) == ItemsAt(st, idx) + [ItemOf(st[i].value)]
  {
  }

  /** One step of the scan from position i + 1 down, with limit l still to collect. */
  lemma ScanStep(st: seq<Entry>, kept: seq<nat>, i: nat, l: int)
    requires i < |st| && l > 0
    ensures IsScoreKey(st[i].key) ==> kept + ScanFrom(st, i + 1, l) == (kept + [i]) + ScanFrom(st, i, l - 1)
    ensures !IsScoreKey(st[i].key) ==> ScanFrom(st, i + 1, l) == ScanFrom(st, i, l)
  {
    if IsScoreKey(st[i].key) {
      assert ScanFrom(st, i + 1, l) == [i] + ScanFrom(st, i, l - 1);
    }
  }

  /** The reply of `get.leaderboard`: the rows of the scanned positions, in scan order. */
  function Query(st: seq<Entry>, limit: int): seq<LeaderboardItem>
  {
    ItemsAt(st, ScanFrom(st, |st|, limit))
  }

  /** Every score key is the key flushing its value would write. */
  predicate WellFormed(st: seq<Entry>)
  {
    forall i :: 0 <= i < |st| && IsScoreKey(st[i].key) ==> st[i].key == FlushKey(st[i].value)
  }

  /** Flushing a sorted buffer keeps every score key the key of its value. */
  lemma FlushKeepsWellFormed(st: seq<Entry>, b: seq<Buffered>, putOk: ScoreSubmission -> bool, writeOk: bool)
    requires SortedStore(st) && WellFormed(st) && Sorted(b)
    ensures SortedStore(Flush(st, b, putOk, writeOk).store) && WellFormed(Flush(st, b, putOk, writeOk).store)
  {
    if b != [] && writeOk {
      var r := Flush(st, b, putOk, true).store;
      FlushStores(st, b, putOk);
      forall i | 0 <= i < |r| && IsScoreKey(r[i].key)
        ensures r[i].key == FlushKey(r[i].value)
      {
        FlushedEntry(st, b, putOk, r, i);
      }
    }
  }

  lemma FlushedEntry(st: seq<Entry>, b: seq<Buffered>, putOk: ScoreSubmission -> bool, r: seq<Entry>, i: nat)
    requires SortedStore(st) && WellFormed(st) && Sorted(b) && b != []
    requires r == Flush(st, b, putOk, true).store && i < |r| && IsScoreKey(r[i].key)
    ensures r[i].key == FlushKey(r[i].value)
  {
    var k := r[i].key;
    FlushStores(st, b, putOk);
    SortedGet(r, i);
    if exists j :: 0 <= j < |b| && putOk(b[j].score) && FlushKey(b[j].score) == k {
      var j :| 0 <= j < |b| && putOk(b[j].score) && FlushKey(b[j].score) == k;
      assert Get(r, FlushKey(b[j].score)) == Some(b[j].score);
    } else {
      assert Get(st, k) == Some(r[i].value);
      GetSome(st, k, r[i].value);
    }
  }

  /** The reply has at most `limit` rows (none for a limit of 0 or less); each is the row
      of a value under a "score:" key, recomputed total included. */
  lemma QueryShape(st: seq<Entry>, limit: int)
    ensures var r, idx := Query(st, limit), ScanFrom(st, |st|, limit);
      |r| <= Max0(limit) && |r| == |idx| &&
      forall m :: 0 <= m < |r| ==>
        IsScoreKey(st[idx[m]].key) && r[m] == ItemOf(st[idx[m]].value) && r[m].totalScore == TotalScore(st[idx[m]].value)
  {
  }

  lemma Pow10Ten()
    ensures Pow10(10) == 10_000_000_000
  {
  }

  /** On a store the flush wrote, with non-negative totals, the rows come with
      non-increasing total score. */
  lemma QueryTotalsNonIncreasing(st: seq<Entry>, limit: int, m: nat, m': nat)
    requires SortedStore(st) && WellFormed(st)
    requires forall i :: 0 <= i < |st| && IsScoreKey(st[i].key) ==> TotalScore(st[i].value) >= 0
    requires m < m' < |Query(st, limit)|
    ensures Query(st, limit)[m].totalScore >= Query(st, limit)[m'].totalScore
  {
    var idx := ScanFrom(st, |st|, limit);
    var hi, lo := st[idx[m]].value, st[idx[m']].value;
    ScanDescendingKeys(st, limit, m, m');
    Pow10Ten();
    ScoreOrderFromKeyOrder(TotalScore(lo), lo.timestamp, lo.username, TotalScore(hi), hi.timestamp, hi.username);
  }

  /** Flush keys are score keys. */
  lemma FlushKeyIsScoreKey(s: ScoreSubmission)
    ensures IsScoreKey(FlushKey(s))
  {
    var k := FlushKey(s);
    assert k == ScorePrefix + (Format010(TotalScore(s)) + ":" + Decimal(s.timestamp) + ":" + s.username);
  }

  class DatabaseVerticle {
    var buffer: seq<Buffered>
    var store: seq<Entry>

    ghost predicate Valid()
      reads this
    {
      Sorted(buffer) && SortedStore(store)
    }

    /** An empty buffer over the database as opened. */
    constructor (initial: seq<Entry>)
      requires SortedStore(initial)
      ensures Valid() && store == initial && buffer == []
    {
      store := initial;
      buffer := [];
    }

    /** `handleSaveScore` at clock reading `now`. */
    method HandleSaveScore(score: ScoreSubmission, now: int) returns (reply: string)
      requires Valid()
      modifies this
      ensures Valid()
      ensures buffer == Put(old(buffer), score, now) && store == old(store) && reply == "Buffered"
    {
      PutSorted(buffer, score, now);
      buffer := Put(buffer, score, now);
      reply := "Buffered";
    }

    method FlushBuffer(putOk: ScoreSubmission -> bool, writeOk: bool)
      requires Valid()
      modifies this
      ensures Valid()
      ensures DbState(store, buffer) == Flush(old(store), old(buffer), putOk, writeOk)
    {
      if buffer == [] {
        return;
      }
      var batch := BuildBatch(buffer, putOk);
      if writeOk {
        ApplyBatchSorted(store, batch);
        store := ApplyBatch(store, batch);
        buffer := [];
      }
    }

    /** `handleGetLeaderboard`: the iterator starts at the last key and steps back while
        it is valid and fewer than `limit` rows are collected. */
    method HandleGetLeaderboard(limit: int) returns (results: seq<LeaderboardItem>)
      ensures results == Query(store, limit)
    {
      var entries := store;
      results := [];
      ghost var kept: seq<nat> := [];
      var i := |entries| - 1;
      while i >= 0 && |results| < limit
        invariant -1 <= i < |entries| && InStore(entries, kept) && |kept| == |results|
        invariant results == ItemsAt(entries, kept)
        invariant kept + ScanFrom(entries, i + 1, limit - |kept|) == ScanFrom(entries, |entries|, limit)
        decreases i
      {
        var key := entries[i].key;
        ScanStep(entries, kept, i, limit - |kept|);
        if |key| >= |ScorePrefix| && key[..|ScorePrefix|] == ScorePrefix {
          ItemsSnoc(entries, kept, i);
          results := results + [ItemOf(entries[i].value)];
          kept := kept + [i];
        }
        i := i - 1;
      }
    }
  }
}
