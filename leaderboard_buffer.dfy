/** The in-memory leaderboard buffer of `DatabaseVerticle`: a `TreeMap` from submission to
    the time it was buffered, ordered by total score descending, then timestamp ascending. */
module LeaderboardBuffer {
  import opened JavaInts
  import opened Messages

  /** `calculateTotalScore` in Java `int` arithmetic: each product and the sum wrap. */
  function TotalScore(s: ScoreSubmission): Int32
  {
    Wrap32(Wrap32(s.wpm * 10) + Wrap32(s.maxCombo * 5))
  }

  /** The total is `wpm * 10 + maxCombo * 5` modulo 2^32, and exactly that when it fits
      in an `int`. */
  lemma TotalScoreWraps(s: ScoreSubmission)
    ensures (TotalScore(s) - (s.wpm * 10 + s.maxCombo * 5)) % TwoTo32 == 0
    ensures InInt32(s.wpm * 10 + s.maxCombo * 5) ==> TotalScore(s) == s.wpm * 10 + s.maxCombo * 5
  {
    var a, b := Wrap32(s.wpm * 10), Wrap32(s.maxCombo * 5);
    WrapSum(s.wpm * 10, a, s.maxCombo * 5, b, TotalScore(s));
    if InInt32(s.wpm * 10 + s.maxCombo * 5) {
      assert -TwoTo32 < TotalScore(s) - (s.wpm * 10 + s.maxCombo * 5) < TwoTo32;
    }
  }

  lemma WrapSum(x: int, a: int, y: int, b: int, r: int)
    requires (x - a) % TwoTo32 == 0 && (y - b) % TwoTo32 == 0 && (a + b - r) % TwoTo32 == 0
    ensures (r - (x + y)) % TwoTo32 == 0
  {
    var p, q, t := (x - a) / TwoTo32, (y - b) / TwoTo32, (a + b - r) / TwoTo32;
    assert x - a == p * TwoTo32 && y - b == q * TwoTo32 && a + b - r == t * TwoTo32;
    assert r - (x + y) == (-(p + q + t)) * TwoTo32;
  }

  /** Scores the game can produce (at most 400 wpm, a streak up to 400 million) add up
      without overflow, to a non-negative total. */
  lemma GameTotalExact(s: ScoreSubmission)
    requires 0 <= s.wpm <= 400 && 0 <= s.maxCombo <= 400_000_000
    ensures TotalScore(s) == s.wpm * 10 + s.maxCombo * 5 >= 0
  {
    TotalScoreWraps(s);
  }

  /** The buffer comparator: a strictly higher total first, then an earlier timestamp. */
  predicate Before(a: ScoreSubmission, b: ScoreSubmission)
  {
    TotalScore(a) > TotalScore(b) || (TotalScore(a) == TotalScore(b) && a.timestamp < b.timestamp)
  }

  /** The comparator returns 0: the TreeMap treats the two as the same key. */
  predicate SameSlot(a: ScoreSubmission, b: ScoreSubmission)
  {
    TotalScore(a) == TotalScore(b) && a.timestamp == b.timestamp
  }

  /** The comparator is a strict total order on slots. */
  lemma ComparatorTotal(a: ScoreSubmission, b: ScoreSubmission, c: ScoreSubmission)
    ensures Before(a, b) || Before(b, a) || SameSlot(a, b)
    ensures !(Before(a, b) && Before(b, a)) && !(Before(a, b) && SameSlot(a, b))
    ensures Before(a, b) && Before(b, c) ==> Before(a, c)
  {
  }

  datatype Buffered = Buffered(score: ScoreSubmission, bufferedAt: int)

  /** Iteration order of the TreeMap: strictly increasing under the comparator. */
  predicate Sorted(b: seq<Buffered>)
  {
    forall i, j :: 0 <= i < j < |b| ==> Before(b[i].score, b[j].score)
  }

  function Scores(b: seq<Buffered>): (r: seq<ScoreSubmission>)
    ensures |r| == |b| && forall i :: 0 <= i < |b| ==> r[i] == b[i].score
  {
    if b == [] then [] else [b[0].score] + Scores(b[1..])
  }

  predicate HasSlot(b: seq<Buffered>, s: ScoreSubmission)
  {
    exists i :: 0 <= i < |b| && SameSlot(b[i].score, s)
  }

  /** `TreeMap.put(s, now)`: on a comparator-equal key the stored key stays and only the
      value is replaced; otherwise s is inserted at its place in the order. */
  function Put(b: seq<Buffered>, s: ScoreSubmission, now: int): seq<Buffered>
  {
    if b == [] then [Buffered(s, now)]
    else if SameSlot(b[0].score, s) then [Buffered(b[0].score, now)] + b[1..]
    else if Before(s, b[0].score) then [Buffered(s, now)] + b
    else [b[0]] + Put(b[1..], s, now)
  }

  /** Put keeps the order; its first entry is the new one or the old first one. */
  lemma {:induction false} PutSorted(b: seq<Buffered>, s: ScoreSubmission, now: int)
    requires Sorted(b)
    ensures Sorted(Put(b, s, now))
    ensures Put(b, s, now)[0].score == s || (b != [] && Put(b, s, now)[0].score == b[0].score)
    decreases |b|
  {
    if b != [] && !SameSlot(b[0].score, s) && !Before(s, b[0].score) {
      PutSorted(b[1..], s, now);
      var r := Put(b[1..], s, now);
      assert Before(b[0].score, s);
      forall j | 0 < j < |r| + 1
        ensures Before(b[0].score, ([b[0]] + r)[j].score)
      {
        ComparatorTotal(b[0].score, r[0].score, r[j - 1].score);
      }
    }
  }

  /** A submission whose (total, timestamp) is already buffered is dropped: the keys stay
      exactly as they were and the slot only gets the new buffering time. */
  lemma {:induction false} PutCollision(b: seq<Buffered>, s: ScoreSubmission, now: int, i: nat)
    requires Sorted(b) && i < |b| && SameSlot(b[i].score, s)
    ensures Scores(Put(b, s, now)) == Scores(b)
    ensures Put(b, s, now) == b[i := Buffered(b[i].score, now)]
    decreases |b|
  {
    if i > 0 {
      assert Before(b[0].score, b[i].score);
      assert !SameSlot(b[0].score, s) && !Before(s, b[0].score);
      PutCollision(b[1..], s, now, i - 1);
      assert b[i := Buffered(b[i].score, now)] == [b[0]] + b[1..][i - 1 := Buffered(b[i].score, now)];
    } else {
      assert b[i := Buffered(b[i].score, now)] == [Buffered(b[0].score, now)] + b[1..];
    }
  }

  /** A submission with a new (total, timestamp) grows the buffer by exactly that entry. */
  lemma {:induction false} PutNewSlot(b: seq<Buffered>, s: ScoreSubmission, now: int)
    requires !HasSlot(b, s)
    ensures exists i :: 0 <= i <= |b| && Put(b, s, now) == b[..i] + [Buffered(s, now)] + b[i..]
    decreases |b|
  {
    if b == [] {
      assert Put(b, s, now) == b[..0] + [Buffered(s, now)] + b[0..];
    } else if Before(s, b[0].score) {
      assert !SameSlot(b[0].score, s);
      assert Put(b, s, now) == [Buffered(s, now)] + b;
      assert b[..0] == [] && b[0..] == b;
    } else {
      var rest, x := b[1..], Buffered(s, now);
      assert !SameSlot(b[0].score, s);
      assert !HasSlot(rest, s) by {
        forall j | 0 <= j < |rest|
          ensures !SameSlot(rest[j].score, s)
        {
          assert rest[j] == b[j + 1];
        }
      }
      PutNewSlot(rest, s, now);
      var i :| 0 <= i <= |rest| && Put(rest, s, now) == rest[..i] + [x] + rest[i..];
      var p, q := rest[..i], rest[i..];
      assert Put(b, s, now) == [b[0]] + (p + [x] + q);
      assert b[..i + 1] == [b[0]] + p && b[i + 1..] == q;
      assert [b[0]] + (p + [x] + q) == ([b[0]] + p) + [x] + q;
    }
  }

  /** Two different players with the same total at the same millisecond: the second
      submission never reaches the buffer. */
  lemma CollisionDropsSecond(first: ScoreSubmission, second: ScoreSubmission, t1: int, t2: int)
    requires SameSlot(first, second) && first != second
    ensures Scores(Put(Put([], first, t1), second, t2)) == [first]
  {
  }
}
