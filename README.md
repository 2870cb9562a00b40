# developer-typing: a verified model of the game and leaderboard core

`developer-typing` is a speed-typing game for developers, with a Vert.x backend. The
verticles talk over the event bus:

- `FileLoaderVerticle` loads the command corpus and hands out random commands.
- `GameVerticle` starts games and takes heartbeats. It validates submitted results:
  the HMAC signature, heartbeat freshness, words per minute, duration and the longest
  matching streak ("max combo").
- `DatabaseVerticle` buffers scores in a `TreeMap` ordered by total score, flushes them
  to RocksDB every 500 ms, and answers leaderboard queries.
- Six event-bus codecs carry the messages between verticles as length-prefixed
  big-endian binary.

This project models that core in Dafny and proves properties of it.

- **Modelled as classes**, because the source updates them in place:
  - `GameSession`, whose heartbeat fields are overwritten;
  - the session table of `GameVerticle`;
  - the buffer and store of `DatabaseVerticle`;
  - the command list of `FileLoaderVerticle`;
  - the Vert.x `Buffer` the codecs append to.
- **Modelled as imperative methods:** every handler and every loop of the source,
  including:
  - the `StringBuilder` loop;
  - `calculateMaxCombo`;
  - the batch loop of `flushBuffer`;
  - the iterator loop of `handleGetLeaderboard`;
  - the line filter of `start`;
  - the draw loop of `handleGetCommands`;
  - the codecs' append and cursor loops.
- **How each method is proved:** against a pure specification function, such as
  `Start`, `Submit`, `Flush`, `Query`, `Corpus`, `Encode`, `Decode` or `MaxCombo`. The
  properties are then lemmas about those functions.

Modules, one per source unit:

- `JavaInts` and `Wrappers`: Java `int`/`long` and their wrap-around; failure wrappers.
- `Buffers`: the Vert.x buffer.
- `Messages`: the records exchanged on the bus.
- `GameSessions`: `GameSession`.
- `GameRules`: the scoring rules of `GameVerticle`.
- `GameVerticles`: the handlers.
- `GameProperties`: properties across several handlers, plus a worked game.
- `ScoreKeys`: the `score:%010d:%d:%s` key and RocksDB's byte order.
- `LeaderboardBuffer`: the comparator-ordered `TreeMap`.
- `LeaderboardStore`: the RocksDB view: sorted entries, write batches, the reverse scan.
- `DatabaseVerticles`: `DatabaseVerticle`.
- `FileLoader`: `FileLoaderVerticle`.
- One module per codec.

Parameters stand for what the code draws from outside:

- `now` for the clock;
- the session id for `UUID.randomUUID()`;
- `draws` for `ThreadLocalRandom`;
- an uninterpreted `sign: string -> string` for the HMAC-SHA256/Base64 signer, fixed
  when the `GameVerticle` is built;
- `commandsReply` (the reply of `get.commands`) and `saveOk` (the reply of
  `save.score`);
- `putOk` (per entry: Jackson serialisation and `batch.put` succeed) and `writeOk`
  (`db.write` succeeds);
- `files: Option<seq<seq<string>>>` for the lines of the `commands/*.txt` files, where
  `None` means the directory is missing.

Four behaviours of the code are proved as they stand, because they are easy to misread:

- **Tie order in the leaderboard.** The buffer orders equal total scores by timestamp
  ascending (DatabaseVerticle.java lines 28-31). The query scans keys downward (lines
  134-154). Within one score a larger timestamp has the larger key, so it returns later
  games first (`ScoreKeys.KeyOrderWithinScore` with `LeaderboardStore.ScanDescendingKeys`).
- **Colliding submissions.** The buffer is a `TreeMap` keyed by the comparator
  (lines 28-31). It keeps the first of two submissions with equal (total score, timestamp)
  and only overwrites its value with the later buffering time (line 100,
  `LeaderboardBuffer.CollisionDropsSecond`).
- **Negative total scores.** The key order matches numeric order only for non-negative
  scores. `%010d` of a negative score (line 112) sorts in reverse
  (`ScoreKeys.NegativeScoresSortReversed`).
- **The signature.** `handleGameStart` signs the session id alone (GameVerticle.java
  line 52). `handleGameSubmit` verifies a signature over the id followed by the typed
  text (lines 81-82). The start signature passes at submit only when the signer happens
  to map both strings alike (`GameProperties.StartSignatureAtSubmit`).

Text lengths follow Java: `length()` and `charAt` count UTF-16 code units, so a character
above U+FFFF counts twice in the words-per-minute figure and the streak (module
`JavaStrings`).

## Model

| member | source | states |
|---|---|---|
| GameSessions.GameSession.constructor | backend/src/main/java/com/example/speedtyping/models/GameSession.java:13-20 | a new session has its last heartbeat at its start time and no keystrokes; id, player, commands and start time are the given ones |
| GameSessions.GameSession.UpdateHeartbeat | backend/src/main/java/com/example/speedtyping/models/GameSession.java:29-32 | the last heartbeat becomes `now` and the keystrokes the reported count, whatever they were before; every other field keeps its value |
| GameRules.ConcatAppend | backend/src/main/java/com/example/speedtyping/GameVerticle.java:97-99 | the expected text of two command lists joined is the two expected texts joined, with no separator |
| GameRules.ConcatSingle | backend/src/main/java/com/example/speedtyping/GameVerticle.java:97-99 | a single command's expected text is the command itself |
| GameRules.BuildExpected | backend/src/main/java/com/example/speedtyping/GameVerticle.java:97-99 | the `StringBuilder` loop yields the commands concatenated in list order |
| GameRules.ClampDuration | backend/src/main/java/com/example/speedtyping/GameVerticle.java:107-108 | the duration used is at least 1 ms, and equals the measured one whenever that is positive |
| GameRules.Wpm | backend/src/main/java/com/example/speedtyping/GameVerticle.java:110-112 | the words-per-minute figure, from the UTF-16 length and the clamped duration, is never negative |
| GameRules.WpmAtMost | backend/src/main/java/com/example/speedtyping/GameVerticle.java:110-118 | wpm is at most a limit exactly when 12000·chars < (limit+1)·duration, with chars the UTF-16 length, so the 400 check is a statement about the inputs |
| GameRules.RunEndingAt | backend/src/main/java/com/example/speedtyping/GameVerticle.java:141-147 | the loop's `combo` counter: a run of agreeing code units ending at i that cannot be extended to the left |
| GameRules.LongestRunIsLongest | backend/src/main/java/com/example/speedtyping/GameVerticle.java:141-148 | after i code units, `maxCombo` is the length of some agreeing run and no agreeing run is longer |
| GameRules.MaxCombo | backend/src/main/java/com/example/speedtyping/GameVerticle.java:136-150 | the combo never exceeds the shorter of the two texts' Java lengths |
| GameRules.MaxComboIsLongestRun | backend/src/main/java/com/example/speedtyping/GameVerticle.java:136-150 | `calculateMaxCombo` is the length of the longest run of UTF-16 positions where typed and expected agree, within the shorter text: one such run exists and none is longer |
| GameRules.MaxComboOfExactText | backend/src/main/java/com/example/speedtyping/GameVerticle.java:136-150 | typing the expected text exactly gives a combo of its full `length()` |
| GameRules.CalculateMaxCombo | backend/src/main/java/com/example/speedtyping/GameVerticle.java:136-150 | the counting loop over the `charAt` code units returns the longest-run length |
| JavaStrings.Utf16Char | backend/src/main/java/com/example/speedtyping/GameVerticle.java:111 | a character below U+10000 is one code unit; any other is two, a high surrogate then a low one |
| JavaStrings.Utf16CharRoundTrip | backend/src/main/java/com/example/speedtyping/GameVerticle.java:111 | the code units of a character determine it: the surrogate pair decodes back to the character |
| JavaStrings.Utf16Concat | backend/src/main/java/com/example/speedtyping/GameVerticle.java:97-99 | the UTF-16 form of joined strings is the two forms joined, so the expected text's units are the commands' units in order |
| JavaStrings.Utf16Bmp | backend/src/main/java/com/example/speedtyping/GameVerticle.java:142 | without characters above U+FFFF, `charAt(i)` is the i-th character and `length()` the character count |
| JavaStrings.LengthOfSupplementary | backend/src/main/java/com/example/speedtyping/GameVerticle.java:111 | a string of characters above U+FFFF only has a `length()` of twice its character count |
| GameVerticles.Start | backend/src/main/java/com/example/speedtyping/GameVerticle.java:34-57 | a failed `get.commands` fails 500 and changes nothing; otherwise one session is added under the new id, starting at `now` with the heartbeat at `now`, no keystrokes and "Anonymous" for a null name; every other session is unchanged; the reply carries the commands, `now` and the signature of the id alone |
| GameVerticles.Heartbeat | backend/src/main/java/com/example/speedtyping/GameVerticle.java:59-68 | an unknown id fails 404 and leaves the table as it was; a known one gets only its last heartbeat and keystrokes overwritten; no other session changes and no session is added |
| GameVerticles.Submit | backend/src/main/java/com/example/speedtyping/GameVerticle.java:70-134 | an unknown id fails 404 and sends nothing; every failure leaves the table unchanged; on success the session is removed (only then), `save.score` succeeded, and the reply carries the wpm and combo of the submission that was sent |
| GameVerticles.Cleanup | backend/src/main/java/com/example/speedtyping/GameVerticle.java:152-155 | a session survives exactly when it was heard from within the last five minutes, and survivors are unchanged |
| GameVerticles.GameVerticle.constructor | backend/src/main/java/com/example/speedtyping/GameVerticle.java:18-19 | the verticle starts with an empty, well-filed session table |
| GameVerticles.GameVerticle.HandleGameStart | backend/src/main/java/com/example/speedtyping/GameVerticle.java:34-57 | the handler's new table and reply are those of `Start`, and every session stays filed under its own id |
| GameVerticles.GameVerticle.AddSession | backend/src/main/java/com/example/speedtyping/GameVerticle.java:48-49 | `sessions.put` adds the new session's state under its id and touches no other entry |
| GameVerticles.GameVerticle.HandleHeartbeat | backend/src/main/java/com/example/speedtyping/GameVerticle.java:59-68 | updating the one session object in place gives the table and reply of `Heartbeat` |
| GameVerticles.GameVerticle.HandleGameSubmit | backend/src/main/java/com/example/speedtyping/GameVerticle.java:70-134 | the check sequence, the expected-text loop and the combo loop give the table, reply and sent submission of `Submit` |
| GameVerticles.GameVerticle.RemoveSession | backend/src/main/java/com/example/speedtyping/GameVerticle.java:131 | `sessions.remove` drops exactly that id |
| GameVerticles.GameVerticle.CleanupSessions | backend/src/main/java/com/example/speedtyping/GameVerticle.java:152-155 | `removeIf` leaves the table of `Cleanup` |
| GameProperties.AssessOutcome | backend/src/main/java/com/example/speedtyping/GameVerticle.java:79-123 | the checks run in the code's order. A bad signature fails 403 before anything else. A heartbeat more than 15000 ms old fails next (exactly 15000 passes). Then a rate of 12000·chars ≥ 401·duration, with chars the UTF-16 `length()`, fails as too fast. Then a duration under 2000 ms fails. Success holds exactly when all four pass (each an if-and-only-if) |
| GameProperties.AcceptedSubmit | backend/src/main/java/com/example/speedtyping/GameVerticle.java:79-133 | an accepted submit was signed over id + typed text, had a recent heartbeat and lasted at least 2000 ms; it sent the request's username and finish time with wpm = ⌊12000·chars/duration⌋ ≤ 400 and the longest-run combo against the concatenated commands |
| GameProperties.SubmitOnlyOnce | backend/src/main/java/com/example/speedtyping/GameVerticle.java:130-131 | once a submit has been saved, any later submit for the same session fails 404 |
| GameProperties.FailedSaveKeepsSession | backend/src/main/java/com/example/speedtyping/GameVerticle.java:130-133 | when `save.score` fails, the reply is 500 and the same submit can be retried successfully |
| GameProperties.StartSignatureAtSubmit | backend/src/main/java/com/example/speedtyping/GameVerticle.java:52-85 | the start reply carries the signature of the id alone. Presented at submit, it is rejected 403 exactly when the signature of id + typed text differs from it |
| GameProperties.HeartbeatKeepsSessionAlive | backend/src/main/java/com/example/speedtyping/GameVerticle.java:59-93 | within 15 s of a heartbeat, the session survives cleanup and a submit fails neither 404 nor for a stale heartbeat |
| GameProperties.CleanupSparesSubmittable | backend/src/main/java/com/example/speedtyping/GameVerticle.java:152-155 | cleanup never removes or changes a session whose heartbeat is fresh enough to submit |
| GameProperties.CleanupIdempotent | backend/src/main/java/com/example/speedtyping/GameVerticle.java:152-155 | a second cleanup at the same time removes nothing more |
| GameProperties.ExampleGame | backend/src/main/java/com/example/speedtyping/GameVerticle.java:34-134 | a worked game: start with a null name, one heartbeat, and a correct 6-second submit of "lspwd". It scores 10 wpm and a combo of 5 for "Anonymous", and leaves the table empty |
| GameProperties.SupplementaryTextCountsTwice | backend/src/main/java/com/example/speedtyping/GameVerticle.java:107-118 | 100 characters above U+FFFF typed in 3000 ms have `length()` 200, which is 800 wpm, and a signed, fresh submit is rejected as too fast |
| GameProperties.SupplementaryComboCountsTwice | backend/src/main/java/com/example/speedtyping/GameVerticle.java:136-150 | typing one character above U+FFFF exactly gives a streak of 2 |
| LeaderboardBuffer.TotalScoreWraps | backend/src/main/java/com/example/speedtyping/DatabaseVerticle.java:33-35 | the total score is wpm·10 + maxCombo·5 in 32-bit wrap-around arithmetic, and exactly that whenever the sum fits an `int` |
| LeaderboardBuffer.GameTotalExact | backend/src/main/java/com/example/speedtyping/DatabaseVerticle.java:33-35 | for any wpm the game accepts (0..400) and any feasible combo, the total is exact and non-negative |
| LeaderboardBuffer.ComparatorTotal | backend/src/main/java/com/example/speedtyping/DatabaseVerticle.java:28-31 | the comparator (total descending, then timestamp ascending) orders any two submissions one way, the other, or puts them in the same slot, consistently and transitively |
| LeaderboardBuffer.PutSorted | backend/src/main/java/com/example/speedtyping/DatabaseVerticle.java:98-102 | `leaderboardBuffer.put` keeps the buffer in comparator order |
| LeaderboardBuffer.PutCollision | backend/src/main/java/com/example/speedtyping/DatabaseVerticle.java:98-102 | a submission whose slot is already taken leaves the buffered submissions as they were and only replaces that slot's value with the new time |
| LeaderboardBuffer.PutNewSlot | backend/src/main/java/com/example/speedtyping/DatabaseVerticle.java:98-102 | a submission in a new slot is inserted once, at some position, with everything else kept in order |
| LeaderboardBuffer.CollisionDropsSecond | backend/src/main/java/com/example/speedtyping/DatabaseVerticle.java:28-31 | of two different submissions with equal (total, timestamp), only the first stays buffered |
| ScoreKeys.Format010Digits | backend/src/main/java/com/example/speedtyping/DatabaseVerticle.java:112 | `%010d` of 0 ≤ x < 10¹⁰ is ten digits whose value is x |
| ScoreKeys.LessIsNumericOrder | backend/src/main/java/com/example/speedtyping/DatabaseVerticle.java:110-112 | on digit strings of equal length, byte order is numeric order (both directions) |
| ScoreKeys.KeyOrderFollowsScore | backend/src/main/java/com/example/speedtyping/DatabaseVerticle.java:110-112 | for scores in 0..10¹⁰, a lower score gives a lower key whatever the timestamps and names |
| ScoreKeys.KeyOrderWithinScore | backend/src/main/java/com/example/speedtyping/DatabaseVerticle.java:112 | within one score, a later timestamp of the same digit count gives a higher key |
| ScoreKeys.ScoreOrderFromKeyOrder | backend/src/main/java/com/example/speedtyping/DatabaseVerticle.java:110-112 | among non-negative scores, a lower key never has the higher score |
| ScoreKeys.NegativeScoresSortReversed | backend/src/main/java/com/example/speedtyping/DatabaseVerticle.java:112 | `%010d` gives -5 as "-000000005" and -10 as "-000000010", and the first sorts lower, against numeric order |
| ScoreKeys.KeyInjective | backend/src/main/java/com/example/speedtyping/DatabaseVerticle.java:112 | equal keys have equal score, timestamp and username |
| ScoreKeys.LessTransitive | backend/src/main/java/com/example/speedtyping/DatabaseVerticle.java:134-135 | RocksDB's bytewise key order is transitive |
| ScoreKeys.LessTotal | backend/src/main/java/com/example/speedtyping/DatabaseVerticle.java:134-135 | of two different keys one sorts below the other |
| ScoreKeys.LessIrreflexive | backend/src/main/java/com/example/speedtyping/DatabaseVerticle.java:134-135 | no key sorts below itself |
| ScoreKeys.DigitsValue | backend/src/main/java/com/example/speedtyping/DatabaseVerticle.java:112 | the decimal digits printed for n read back as n |
| LeaderboardStore.StorePutGet | backend/src/main/java/com/example/speedtyping/DatabaseVerticle.java:116 | after a put, the key holds the new value and every other key what it held before |
| LeaderboardStore.StorePutSorted | backend/src/main/java/com/example/speedtyping/DatabaseVerticle.java:116 | a put keeps the store's keys strictly increasing |
| LeaderboardStore.ApplyBatchGet | backend/src/main/java/com/example/speedtyping/DatabaseVerticle.java:121 | after `db.write(batch)`, a key the batch writes holds its last value there, and every other key is as before |
| LeaderboardStore.ApplyBatchSorted | backend/src/main/java/com/example/speedtyping/DatabaseVerticle.java:121 | writing a batch keeps the store's keys strictly increasing |
| LeaderboardStore.SortedGet | backend/src/main/java/com/example/speedtyping/DatabaseVerticle.java:134-142 | in a sorted store, `get` of a stored key returns the value stored with it |
| LeaderboardStore.ScanFrom | backend/src/main/java/com/example/speedtyping/DatabaseVerticle.java:134-155 | the scan yields at most max(limit, 0) positions, all under "score:" keys and strictly descending |
| LeaderboardStore.ScanComplete | backend/src/main/java/com/example/speedtyping/DatabaseVerticle.java:137-155 | the scan misses no score key: it reads all of them when it stops short of the limit, and otherwise all above the last one kept |
| LeaderboardStore.ScanDescendingKeys | backend/src/main/java/com/example/speedtyping/DatabaseVerticle.java:134-155 | on a sorted store the scanned keys come in strictly descending byte order |
| DatabaseVerticles.BatchKeys | backend/src/main/java/com/example/speedtyping/DatabaseVerticle.java:108-120 | the batch writes a key exactly when some buffered entry that serialises formats to it |
| DatabaseVerticles.DistinctSlotsDistinctKeys | backend/src/main/java/com/example/speedtyping/DatabaseVerticle.java:108-112 | entries in different buffer slots get different keys |
| DatabaseVerticles.BatchLastValue | backend/src/main/java/com/example/speedtyping/DatabaseVerticle.java:108-120 | every buffered entry that serialises is written, last and only, under its own key |
| DatabaseVerticles.PrepareEntry | backend/src/main/java/com/example/speedtyping/DatabaseVerticle.java:109-119 | one loop step: the entry's key and value go into the batch when serialisation succeeds, and nothing otherwise |
| DatabaseVerticles.BuildBatch | backend/src/main/java/com/example/speedtyping/DatabaseVerticle.java:107-120 | the loop over the buffer builds the batch in buffer order |
| DatabaseVerticles.Flush | backend/src/main/java/com/example/speedtyping/DatabaseVerticle.java:104-126 | flushing an empty buffer, or a failed batch write, changes nothing (the entries are retried on the next tick); a successful write clears the buffer |
| DatabaseVerticles.FlushStores | backend/src/main/java/com/example/speedtyping/DatabaseVerticle.java:104-126 | after a successful flush the store is sorted and the buffer empty; each buffered entry that serialised can be read under its `score:%010d:%d:%s` key; every other key holds what it held |
| DatabaseVerticles.FlushKeepsWellFormed | backend/src/main/java/com/example/speedtyping/DatabaseVerticle.java:104-126 | flushing keeps the store sorted and keeps every score key equal to the key of the submission stored under it |
| DatabaseVerticles.FlushKeyIsScoreKey | backend/src/main/java/com/example/speedtyping/DatabaseVerticle.java:112 | every flush key carries the "score:" prefix the query filters on |
| DatabaseVerticles.QueryShape | backend/src/main/java/com/example/speedtyping/DatabaseVerticle.java:134-155 | the query returns at most max(limit, 0) rows, none when limit ≤ 0. Each row comes from a "score:" key and lists its username, wpm, maxCombo and timestamp, with the total recomputed from wpm and maxCombo |
| DatabaseVerticles.QueryTotalsNonIncreasing | backend/src/main/java/com/example/speedtyping/DatabaseVerticle.java:134-155 | on a flushed store with non-negative totals, the rows come in non-increasing total score |
| DatabaseVerticles.DatabaseVerticle.constructor | backend/src/main/java/com/example/speedtyping/DatabaseVerticle.java:28-31 | the verticle opens on a sorted store with an empty buffer |
| DatabaseVerticles.DatabaseVerticle.HandleSaveScore | backend/src/main/java/com/example/speedtyping/DatabaseVerticle.java:98-102 | the submission is put in the buffer stamped `now`, the store is untouched, the buffer stays sorted and the reply is "Buffered" |
| DatabaseVerticles.DatabaseVerticle.FlushBuffer | backend/src/main/java/com/example/speedtyping/DatabaseVerticle.java:104-126 | the new store and buffer are those of `Flush`, and the store stays sorted |
| DatabaseVerticles.DatabaseVerticle.HandleGetLeaderboard | backend/src/main/java/com/example/speedtyping/DatabaseVerticle.java:128-159 | the iterator loop from the last key down returns the rows of `Query` |
| FileLoader.TrimShape | backend/src/main/java/com/example/speedtyping/FileLoaderVerticle.java:25-26 | `trim` returns a slice of the line with only characters ≤ ' ' cut on either side, and the slice neither starts nor ends with one |
| FileLoader.TrimEmpty | backend/src/main/java/com/example/speedtyping/FileLoaderVerticle.java:25 | a line trims to "" exactly when all its characters are ≤ ' ' |
| FileLoader.TrimIdempotent | backend/src/main/java/com/example/speedtyping/FileLoaderVerticle.java:25-26 | trimming twice is trimming once |
| FileLoader.KeptConcat | backend/src/main/java/com/example/speedtyping/FileLoaderVerticle.java:22-28 | lines are kept in line order: the kept lines of two parts joined are the two results joined |
| FileLoader.KeptSound | backend/src/main/java/com/example/speedtyping/FileLoaderVerticle.java:24-28 | every stored command is non-empty and is the trim of some input line |
| FileLoader.KeptComplete | backend/src/main/java/com/example/speedtyping/FileLoaderVerticle.java:24-28 | every line that is not blank is stored, trimmed |
| FileLoader.CorpusSound | backend/src/main/java/com/example/speedtyping/FileLoaderVerticle.java:20-28 | across all files, every command is non-empty and the trim of some line of some file |
| FileLoader.FileLoaderVerticle.constructor | backend/src/main/java/com/example/speedtyping/FileLoaderVerticle.java:13 | the command list starts empty |
| FileLoader.FileLoaderVerticle.Start | backend/src/main/java/com/example/speedtyping/FileLoaderVerticle.java:16-41 | with no commands directory nothing is added; otherwise the kept lines of every file are appended in file and line order |
| FileLoader.FileLoaderVerticle.LoadFile | backend/src/main/java/com/example/speedtyping/FileLoaderVerticle.java:23-28 | one file's kept lines are appended in order |
| FileLoader.FileLoaderVerticle.HandleGetCommands | backend/src/main/java/com/example/speedtyping/FileLoaderVerticle.java:43-56 | an empty corpus replies [] for any count. Otherwise exactly max(count, 0) commands come back, the i-th being the command at the i-th random index, and every reply element is a corpus command |
| JavaInts.Wrap32 | backend/src/main/java/com/example/speedtyping/DatabaseVerticle.java:34 | Java `int` arithmetic: the result is congruent to the exact value modulo 2³², and equal to it when it fits |
| Buffers.Int32RoundTrip | backend/src/main/java/com/example/speedtyping/codecs/ScoreSubmissionCodec.java:20-21 | every `int`, negatives included, survives `appendInt` followed by `getInt` |
| Buffers.Int64RoundTrip | backend/src/main/java/com/example/speedtyping/codecs/ScoreSubmissionCodec.java:22 | every `long`, negatives included, survives `appendLong` followed by `getLong` |
| Buffers.FieldAtEncoded | backend/src/main/java/com/example/speedtyping/codecs/GameSubmitRequestCodec.java:12-14 | a length-prefixed field reads back whole at its offset, whatever bytes precede or follow it |
| Buffers.Buffer.AppendField | backend/src/main/java/com/example/speedtyping/codecs/GameSubmitRequestCodec.java:12-14 | `appendInt(len)` then `appendBytes` adds exactly the length-prefixed field after the existing bytes |
| GameStartResponseCodec.Encode | backend/src/main/java/com/example/speedtyping/codecs/GameStartResponseCodec.java:12-34 | the encoding is 4+\|sessionId\| + 4 + Σ(4+\|command\|) + 8 + 4+\|signature\| bytes long |
| GameStartResponseCodec.CountField | backend/src/main/java/com/example/speedtyping/codecs/GameStartResponseCodec.java:20 | the int after the session id field is `commands.size()` |
| GameStartResponseCodec.FieldsSnoc | backend/src/main/java/com/example/speedtyping/codecs/GameStartResponseCodec.java:21-25 | writing one more command appends exactly its field |
| GameStartResponseCodec.AppendFields | backend/src/main/java/com/example/speedtyping/codecs/GameStartResponseCodec.java:21-25 | the command loop appends one field per command, in list order |
| GameStartResponseCodec.EncodeToWire | backend/src/main/java/com/example/speedtyping/codecs/GameStartResponseCodec.java:12-34 | the buffer keeps its bytes and gains exactly the encoding |
| GameStartResponseCodec.ReadFields | backend/src/main/java/com/example/speedtyping/codecs/GameStartResponseCodec.java:49-55 | the cursor loop reads exactly `commandsSize` length-prefixed commands, or fails where a read would |
| GameStartResponseCodec.DecodeFromWire | backend/src/main/java/com/example/speedtyping/codecs/GameStartResponseCodec.java:37-68 | the cursor walk gives the decoder's result, failing on an out-of-range read, a negative length or a negative count |
| GameStartResponseCodec.FieldsRoundTrip | backend/src/main/java/com/example/speedtyping/codecs/GameStartResponseCodec.java:47-55 | the command fields read back in order and the cursor lands right after them |
| GameStartResponseCodec.RoundTrip | backend/src/main/java/com/example/speedtyping/codecs/GameStartResponseCodec.java:12-68 | decoding at \|prefix\| of prefix ++ encoding ++ suffix gives back the reply, all commands in order |
| GameStartResponseCodec.Transform | backend/src/main/java/com/example/speedtyping/codecs/GameStartResponseCodec.java:71-73 | local delivery hands the same object on |
| GameSubmitRequestCodec.Encode | backend/src/main/java/com/example/speedtyping/codecs/GameSubmitRequestCodec.java:10-33 | the fields go sessionId, username, typedText, finishTime, signature, in 4+\|sid\| + 4+\|user\| + 4+\|text\| + 8 + 4+\|sig\| bytes |
| GameSubmitRequestCodec.EncodeToWire | backend/src/main/java/com/example/speedtyping/codecs/GameSubmitRequestCodec.java:10-33 | the buffer keeps its bytes and gains exactly the encoding |
| GameSubmitRequestCodec.DecodeFromWire | backend/src/main/java/com/example/speedtyping/codecs/GameSubmitRequestCodec.java:36-68 | the cursor walk gives the decoder's result |
| GameSubmitRequestCodec.RoundTrip | backend/src/main/java/com/example/speedtyping/codecs/GameSubmitRequestCodec.java:10-68 | every request, any 64-bit finish time included, decodes back from prefix ++ encoding ++ suffix |
| GameSubmitRequestCodec.Transform | backend/src/main/java/com/example/speedtyping/codecs/GameSubmitRequestCodec.java:71-73 | local delivery hands the same object on |
| ScoreSubmissionCodec.Encode | backend/src/main/java/com/example/speedtyping/codecs/ScoreSubmissionCodec.java:10-23 | the encoding is 4+\|username\| + 4 + 4 + 8 bytes, a null username counting as 0 |
| ScoreSubmissionCodec.EncodeToWire | backend/src/main/java/com/example/speedtyping/codecs/ScoreSubmissionCodec.java:10-23 | the buffer keeps its bytes and gains exactly the encoding, a null username as a lone 0 length |
| ScoreSubmissionCodec.DecodeFromWire | backend/src/main/java/com/example/speedtyping/codecs/ScoreSubmissionCodec.java:26-42 | the cursor walk, skipping username bytes only for a positive length, gives the decoder's result |
| ScoreSubmissionCodec.RoundTrip | backend/src/main/java/com/example/speedtyping/codecs/ScoreSubmissionCodec.java:10-42 | any non-null username ("" included) and any wpm, maxCombo and timestamp, negatives included, decode back; a null username comes back as "" |
| ScoreSubmissionCodec.NullUsernameDecodesAsEmpty | backend/src/main/java/com/example/speedtyping/codecs/ScoreSubmissionCodec.java:13-15 | a null username arrives as "" over the wire, not as the null that local delivery keeps |
| ScoreSubmissionCodec.Transform | backend/src/main/java/com/example/speedtyping/codecs/ScoreSubmissionCodec.java:45-47 | local delivery hands the same object on |
| GameStartRequestCodec.Encode | backend/src/main/java/com/example/speedtyping/codecs/GameStartRequestCodec.java:10-19 | the encoding is 4 + \|username\| bytes, a null username counting as 0 |
| GameStartRequestCodec.EncodeToWire | backend/src/main/java/com/example/speedtyping/codecs/GameStartRequestCodec.java:10-19 | the buffer keeps its bytes and gains exactly the encoding |
| GameStartRequestCodec.DecodeFromWire | backend/src/main/java/com/example/speedtyping/codecs/GameStartRequestCodec.java:22-33 | the cursor walk, leaving the name null unless the length is positive, gives the decoder's result |
| GameStartRequestCodec.RoundTrip | backend/src/main/java/com/example/speedtyping/codecs/GameStartRequestCodec.java:10-33 | a null or non-empty username decodes back byte for byte; "" decodes as null |
| GameStartRequestCodec.NullAndEmptyEncodeAlike | backend/src/main/java/com/example/speedtyping/codecs/GameStartRequestCodec.java:11-18 | null and "" both encode as the single 4-byte length 0 |
| GameStartRequestCodec.EmptyUsernameDoesNotRoundTrip | backend/src/main/java/com/example/speedtyping/codecs/GameStartRequestCodec.java:26-31 | "" sent over the wire does not arrive as the "" local delivery keeps |
| GameStartRequestCodec.Transform | backend/src/main/java/com/example/speedtyping/codecs/GameStartRequestCodec.java:36-38 | local delivery hands the same object on |
| HeartbeatRequestCodec.Encode | backend/src/main/java/com/example/speedtyping/codecs/HeartbeatRequestCodec.java:10-15 | the encoding is 4+\|sessionId\|+4 bytes |
| HeartbeatRequestCodec.EncodeToWire | backend/src/main/java/com/example/speedtyping/codecs/HeartbeatRequestCodec.java:10-15 | the buffer keeps its bytes and gains exactly the encoding |
| HeartbeatRequestCodec.DecodeFromWire | backend/src/main/java/com/example/speedtyping/codecs/HeartbeatRequestCodec.java:18-26 | the cursor walk gives the decoder's result |
| HeartbeatRequestCodec.RoundTrip | backend/src/main/java/com/example/speedtyping/codecs/HeartbeatRequestCodec.java:10-26 | every (sessionId, progress), any 32-bit progress included, decodes back |
| HeartbeatRequestCodec.Transform | backend/src/main/java/com/example/speedtyping/codecs/HeartbeatRequestCodec.java:29-31 | local delivery hands the same object on |
| LeaderboardRequestCodec.Encode | backend/src/main/java/com/example/speedtyping/codecs/LeaderboardRequestCodec.java:10-12 | the encoding is exactly 4 bytes |
| LeaderboardRequestCodec.EncodeToWire | backend/src/main/java/com/example/speedtyping/codecs/LeaderboardRequestCodec.java:10-12 | the buffer keeps its bytes and gains exactly those 4 bytes |
| LeaderboardRequestCodec.DecodeFromWire | backend/src/main/java/com/example/speedtyping/codecs/LeaderboardRequestCodec.java:15-19 | the read at `pos` gives the decoder's result |
| LeaderboardRequestCodec.RoundTrip | backend/src/main/java/com/example/speedtyping/codecs/LeaderboardRequestCodec.java:10-19 | every 32-bit limit decodes back |
| LeaderboardRequestCodec.DecodeIgnoresPrefix | backend/src/main/java/com/example/speedtyping/codecs/LeaderboardRequestCodec.java:15-19 | decoding reads only the bytes from `pos` on; what precedes them does not matter |
| LeaderboardRequestCodec.Transform | backend/src/main/java/com/example/speedtyping/codecs/LeaderboardRequestCodec.java:22-24 | local delivery hands the same object on |

## Left out

- HMAC-SHA256 and Base64 inside `sign`, and the `HMAC_SECRET` environment default: foreign crypto, so the signer is an uninterpreted function and `verify` is string equality.
- RocksDB opening, `restoreIfCorrupted`, `backup` and the backup engine: file-system and native-library I/O. The store is modelled as its logical content, a key-sorted sequence of entries.
- Jackson serialisation and deserialisation of `ScoreSubmission`: stored values are the records themselves. A per-entry serialisation or `batch.put` failure is the `putOk` oracle. A deserialisation failure in the query, where the row is skipped, cannot arise, because stored values are always well-formed records.
- Concurrency and timers (`ConcurrentHashMap`, `setPeriodic`, the asynchronous replies): each handler, flush and cleanup is one atomic step, and `now` is a parameter.
- `System.currentTimeMillis`, `UUID.randomUUID` and `ThreadLocalRandom`: parameters. The random indices are a sequence of in-range draws.
- GameRules.Wpm: the source divides in doubles; the model floors the exact quotient 12000·chars/duration, which could differ from the double result at an exact boundary. The `(int)` cast's saturation at `Integer.MAX_VALUE` is modelled.
- Clock values are unbounded integers in the game and database layers, so a `long` overflow of `finishTime - startTime` or `now - lastHeartbeat` is not modelled. The codecs do use 64-bit longs.
- Platform-charset `getBytes`/`new String` in the codecs: the codec modules work on the byte sequences directly. The game and database layers use strings.
- Vert.x `Buffer` capacity slack: a read beyond the written bytes fails, as `getInt` past the end does.
- GameVerticles.Heartbeat, GameVerticles.Submit, GameVerticles.GameVerticle.HandleHeartbeat, GameVerticles.GameVerticle.HandleGameSubmit: a null session id is not modelled. The HTTP layer passes null when the JSON lacks the field, and `sessions.get(null)` on the `ConcurrentHashMap` then throws, so no reply is sent. The model's session id is always a string.
- ScoreKeys.Format010: `String.format` uses the default locale, which could print non-ASCII digits; the model prints ASCII digits.
- Null usernames in the game and database layers: a `GameSubmitRequest` username is a string. A null in the database key (printed as "null") is not modelled. Null is modelled in the two codecs that handle it.
- FileLoader.FileLoaderVerticle.Start: directory listing order and I/O exceptions are not modelled. The files arrive as line sequences in the order the listing would give.
- The `get.commands` request of `handleGameStart` always asks for 10 commands; the model takes the reply as the `commandsReply` parameter. A non-string element in the reply, which would throw a `ClassCastException`, cannot arise, because the reply is a sequence of strings.
- The heartbeat and submit replies (`"OK"`, the failure message texts): the model keeps the failure codes and the reply values, not the message strings.
- `ApiVerticle` (HTTP routing, CORS, JSON extraction), `MainVerticle` (codec registration, deployment) and `verify_theme.py` (browser check) are not part of this model.
- The `name()` and `systemCodecID()` methods of the codecs: constants with no behaviour to prove.
