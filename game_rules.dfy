/** The scoring rules of `GameVerticle`: the expected text, the words-per-minute figure,
    the longest matching run and the order of the submit checks. */
module GameRules {
  import opened JavaInts
  import opened Wrappers
  import opened Messages
  import opened GameSessions
  import opened JavaStrings

  /** Five minutes of silence and cleanup drops a session. */
  const SessionTimeoutMs: int := 5 * 60 * 1000
  /** Grace period for the last heartbeat before a submit. */
  const HeartbeatGraceMs: int := 15000
  /** Anything faster is rejected as cheating. */
  const MaxWpm: int := 400
  /** Anything quicker is rejected as an impossible time. */
  const MinDurationMs: int := 2000
  /** Commands requested from the corpus for one game. */
  const CommandsPerGame: int := 10
  const AnonymousName: string := "Anonymous"

  /** Failure replies of the game handlers; `Code` gives the event-bus failure code. */
  datatype GameError =
    | SessionNotFound
    | InvalidSignature
    | NoRecentHeartbeat
    | WpmTooHigh
    | ImpossibleTime
    | Internal

  function Code(e: GameError): int
  {
    match e
    case SessionNotFound => 404
    case InvalidSignature => 403
    case NoRecentHeartbeat => 400
    case WpmTooHigh => 400
    case ImpossibleTime => 400
    case Internal => 500
  }

  /** The commands joined in order with no separator. */
  function Concat(cmds: seq<string>): string
  {
    if cmds == [] then "" else Concat(cmds[..|cmds| - 1]) + cmds[|cmds| - 1]
  }

  /** Joining distributes over splitting the list: `Concat` is exactly in-order,
      separator-free concatenation. */
  lemma {:induction false} ConcatAppend(a: seq<string>, b: seq<string>)
    ensures Concat(a + b) == Concat(a) + Concat(b)
    decreases |b|
  {
    if b == [] {
      assert a + b == a;
    } else {
      var init, last := b[..|b| - 1], b[|b| - 1];
      assert (a + b)[..|a + b| - 1] == a + init && (a + b)[|a + b| - 1] == last;
      assert Concat(a + b) == Concat(a + init) + last;
      ConcatAppend(a, init);
      assert Concat(b) == Concat(init) + last;
    }
  }

  lemma ConcatSingle(c: string)
    ensures Concat([c]) == c
  {
    assert [c][..0] == [];
  }

  /** The StringBuilder loop that rebuilds the expected text. */
  method BuildExpected(commands: seq<string>) returns (expected: string)
    ensures expected == Concat(commands)
  {
    expected := "";
    for i := 0 to |commands|
      invariant expected == Concat(commands[..i])
    {
      assert commands[..i + 1][..i] == commands[..i];
      expected := expected + commands[i];
    }
    assert commands[..|commands|] == commands;
  }

  /** A duration that is not positive counts as 1 ms. */
  function ClampDuration(durationMs: int): (d: int)
    ensures d >= 1
    ensures durationMs >= 1 ==> d == durationMs
  {
    if durationMs <= 0 then 1 else durationMs
  }

  /** `(int)((chars / 5.0) / (durationMs / 60000.0))` taken exactly and floored; the
      narrowing cast saturates at `Integer.MAX_VALUE`. */
  function Wpm(chars: nat, durationMs: int): (w: Int32)
    requires durationMs >= 1
    ensures w >= 0
  {
    var exact := chars * 12000 / durationMs;
    if exact > Int32Max then Int32Max else exact
  }

  /** The wpm check in terms of the inputs: the rate is at most 400 exactly when
      12000 characters per ms stay below 401 per ms of duration. */
  lemma WpmAtMost(chars: nat, durationMs: int, limit: nat)
    requires durationMs >= 1 && limit < Int32Max
    ensures Wpm(chars, durationMs) <= limit <==> chars * 12000 < (limit + 1) * durationMs
  {
    var x := chars * 12000;
    var q := x / durationMs;
    assert x == q * durationMs + x % durationMs;
    if q <= limit {
      assert q * durationMs <= limit * durationMs by {
        MulLe(q, limit, durationMs);
      }
    } else {
      assert (limit + 1) * durationMs <= q * durationMs by {
        MulLe(limit + 1, q, durationMs);
      }
    }
  }

  lemma MulLe(a: int, b: int, c: nat)
    requires a <= b
    ensures a * c <= b * c
  {
  }

  /** Equal characters at position i. */
  predicate MatchAt(typed: seq<CodeUnit>, expected: seq<CodeUnit>, i: nat)
    requires i < |typed| && i < |expected|
  {
    typed[i] == expected[i]
  }

  /** Positions [j, k) all match. */
  predicate MatchRun(typed: seq<CodeUnit>, expected: seq<CodeUnit>, j: nat, k: nat)
    requires j <= k <= |typed| && k <= |expected|
  {
    forall x :: j <= x < k ==> MatchAt(typed, expected, x)
  }

  /** The length of the run of matches ending just before position i: the `combo`
      counter of `calculateMaxCombo` after i steps. */
  function RunEndingAt(typed: seq<CodeUnit>, expected: seq<CodeUnit>, i: nat): (r: nat)
    requires i <= |typed| && i <= |expected|
    ensures r <= i
    ensures MatchRun(typed, expected, i - r, i)
    ensures r < i ==> !MatchAt(typed, expected, i - r - 1)
  {
    if i == 0 || !MatchAt(typed, expected, i - 1) then 0 else RunEndingAt(typed, expected, i - 1) + 1
  }

  /** The longest run among the first i positions: the `maxCombo` counter after i steps. */
  function LongestRun(typed: seq<CodeUnit>, expected: seq<CodeUnit>, i: nat): (r: nat)
    requires i <= |typed| && i <= |expected|
    ensures r <= i
  {
    if i == 0 then 0
    else
      var before := LongestRun(typed, expected, i - 1);
      var run := RunEndingAt(typed, expected, i);
      if run > before then run else before
  }

  function Min(a: int, b: int): int
  {
    if a < b then a else b
  }

  /** The streak of the submission: `charAt` compares UTF-16 code units, up to the
      shorter of the two lengths. */
  function MaxCombo(typed: string, expected: string): (r: nat)
    ensures r <= Min(Length(typed), Length(expected))
  {
    var t, e := Utf16(typed), Utf16(expected);
    LongestRun(t, e, Min(|t|, |e|))
  }

  /** A run inside the first i positions is no longer than the run ending where it ends. */
  lemma {:induction false} RunBoundedByRunEndingAt(typed: seq<CodeUnit>, expected: seq<CodeUnit>, j: nat, k: nat)
    requires j <= k <= |typed| && k <= |expected| && MatchRun(typed, expected, j, k)
    ensures k - j <= RunEndingAt(typed, expected, k)
    decreases k
  {
    if j < k {
      assert MatchAt(typed, expected, k - 1);
      RunBoundedByRunEndingAt(typed, expected, j, k - 1);
    }
  }

  /** `LongestRun` is the length of the longest run of matches: one of that length
      exists, and no run is longer. */
  lemma {:induction false} LongestRunIsLongest(typed: seq<CodeUnit>, expected: seq<CodeUnit>, i: nat)
    requires i <= |typed| && i <= |expected|
    ensures exists j, k :: 0 <= j <= k <= i && k - j == LongestRun(typed, expected, i) && MatchRun(typed, expected, j, k)
    ensures forall j, k :: 0 <= j <= k <= i && MatchRun(typed, expected, j, k) ==> k - j <= LongestRun(typed, expected, i)
    decreases i
  {
    var r := LongestRun(typed, expected, i);
    if i == 0 {
      assert MatchRun(typed, expected, 0, 0);
      assert 0 <= 0 <= 0 <= i && 0 - 0 == r;
    } else {
      LongestRunIsLongest(typed, expected, i - 1);
      var run := RunEndingAt(typed, expected, i);
      if run > LongestRun(typed, expected, i - 1) {
        assert MatchRun(typed, expected, i - run, i);
      } else {
        var j, k :| 0 <= j <= k <= i - 1 && k - j == r && MatchRun(typed, expected, j, k);
        assert 0 <= j <= k <= i;
      }
      forall j, k | 0 <= j <= k <= i && MatchRun(typed, expected, j, k)
        ensures k - j <= r
      {
        if k == i {
          RunBoundedByRunEndingAt(typed, expected, j, k);
        }
      }
    }
  }

  /** `calculateMaxCombo` returns the length of the longest run of positions where
      the typed and the expected code unit agree, within the shorter text. */
  lemma MaxComboIsLongestRun(typed: string, expected: string)
    ensures var t, e := Utf16(typed), Utf16(expected);
      var n, r := Min(|t|, |e|), MaxCombo(typed, expected);
      0 <= r <= n &&
      (exists j, k :: 0 <= j <= k <= n && k - j == r && MatchRun(t, e, j, k)) &&
      (forall j, k :: 0 <= j <= k <= n && MatchRun(t, e, j, k) ==> k - j <= r)
  {
    var t, e := Utf16(typed), Utf16(expected);
    LongestRunIsLongest(t, e, Min(|t|, |e|));
  }

  /** Typing the expected text exactly gives a streak of its full Java length. */
  lemma MaxComboOfExactText(text: string)
    ensures MaxCombo(text, text) == Length(text)
  {
    var u := Utf16(text);
    MaxComboIsLongestRun(text, text);
    assert MatchRun(u, u, 0, |u|);
  }

  /** The counting loop of `calculateMaxCombo`, over the code units `charAt` reads. */
  method CalculateMaxCombo(typed: string, expected: string) returns (maxCombo: nat)
    ensures maxCombo == MaxCombo(typed, expected)
  {
    var t, e := Utf16(typed), Utf16(expected);
    var combo := 0;
    maxCombo := 0;
    var len := Min(|t|, |e|);
    for i := 0 to len
      invariant combo == RunEndingAt(t, e, i)
      invariant maxCombo == LongestRun(t, e, i)
    {
      if t[i] == e[i] {
        combo := combo + 1;
        if combo > maxCombo {
          maxCombo := combo;
        }
      } else {
        combo := 0;
      }
    }
  }
}
