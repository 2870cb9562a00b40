/** What the game handlers promise across calls. */
module GameProperties {
  import opened JavaInts
  import opened Wrappers
  import opened Messages
  import opened GameSessions
  import opened GameRules
  import opened JavaStrings
  import opened GameVerticles

  /** The submit checks in the code's order. Each failure happens exactly when the
      checks before it passed and it did not hold; the rate check is stated on the
      characters and the clamped duration directly. */
  lemma AssessOutcome(s: SessionView, req: GameSubmitRequest, now: int, sign: string -> string)
    ensures var d, chars := ClampDuration(req.finishTime - s.startTime), Length(req.typedText);
      var signed := sign(req.sessionId + req.typedText) == req.signature;
      var recent := now - s.lastHeartbeat <= HeartbeatGraceMs;
      var result := Assess(s, req, now, sign);
      (result == Failure(InvalidSignature) <==> !signed) &&
      (result == Failure(NoRecentHeartbeat) <==> signed && !recent) &&
      (result == Failure(WpmTooHigh) <==> signed && recent && chars * 12000 >= 401 * d) &&
      (result == Failure(ImpossibleTime) <==> signed && recent && chars * 12000 < 401 * d && d < MinDurationMs) &&
      (result.Success? <==> signed && recent && chars * 12000 < 401 * d && d >= MinDurationMs)
  {
    WpmAtMost(Length(req.typedText), ClampDuration(req.finishTime - s.startTime), MaxWpm);
  }

  /** An accepted submit was signed over id + typed text, arrived within 15 s of the last
      heartbeat, took at least 2 s and scored at most 400 wpm; the submission carries the
      request's player and finish time, the computed rate and the streak against the
      session's commands. */
  lemma AcceptedSubmit(t: SessionTable, req: GameSubmitRequest, now: int, saveOk: bool, sign: string -> string)
    requires Submit(t, req, now, saveOk, sign).reply.Success?
    ensures var o, s := Submit(t, req, now, saveOk, sign), t[req.sessionId];
      sign(req.sessionId + req.typedText) == req.signature &&
      now - s.lastHeartbeat <= HeartbeatGraceMs &&
      req.finishTime - s.startTime >= MinDurationMs &&
      o.sent == Some(ScoreSubmission(req.username, Wpm(Length(req.typedText), req.finishTime - s.startTime),
                                     MaxCombo(req.typedText, Concat(s.commands)), req.finishTime)) &&
      0 <= o.sent.value.wpm <= MaxWpm &&
      o.sent.value.wpm == Length(req.typedText) * 12000 / (req.finishTime - s.startTime)
  {
    var s := t[req.sessionId];
    AssessOutcome(s, req, now, sign);
  }

  /** A session is scored once: after a saved submit the same id is unknown. Each
      handler is one atomic step here; in the code `sessions.remove` runs only when the
      `save.score` reply arrives, so a second submit handled before that reply is also
      accepted and saved. */
  lemma SubmitOnlyOnce(t: SessionTable, req: GameSubmitRequest, now: int, sign: string -> string,
                       again: GameSubmitRequest, later: int, saveOk: bool)
    requires Submit(t, req, now, true, sign).reply.Success?
    requires again.sessionId == req.sessionId
    ensures Submit(Submit(t, req, now, true, sign).table, again, later, saveOk, sign).reply == Failure(SessionNotFound)
  {
  }

  /** A failed save keeps the session, so the same submit can be retried. */
  lemma FailedSaveKeepsSession(t: SessionTable, req: GameSubmitRequest, now: int, sign: string -> string)
    requires req.sessionId in t && Assess(t[req.sessionId], req, now, sign).Success?
    ensures Submit(t, req, now, false, sign).reply == Failure(Internal)
    ensures Submit(Submit(t, req, now, false, sign).table, req, now, true, sign).reply.Success?
  {
  }

  /** The signature handed out at start covers the session id alone, while submit checks a
      signature over id + typed text: the start signature passes that check exactly when
      the signer gives both strings the same signature. */
  lemma StartSignatureAtSubmit(t: SessionTable, start: GameStartRequest, commands: seq<string>, id: string,
                               now: int, sign: string -> string, req: GameSubmitRequest, later: int, saveOk: bool)
    requires req.sessionId == id && req.signature == sign(id)
    ensures var o := Start(t, start, Some(commands), id, now, sign);
      o.reply.value.signature == sign(id) &&
      (Submit(o.table, req, later, saveOk, sign).reply == Failure(InvalidSignature) <==> sign(id + req.typedText) != sign(id))
  {
  }

  /** A session that heartbeats stays submittable for 15 s and survives cleanup for five
      minutes. */
  lemma HeartbeatKeepsSessionAlive(t: SessionTable, hb: HeartbeatRequest, now: int, later: int,
                                   req: GameSubmitRequest, saveOk: bool, sign: string -> string)
    requires hb.sessionId in t && req.sessionId == hb.sessionId
    requires now <= later <= now + HeartbeatGraceMs
    ensures var after := Heartbeat(t, hb, now).table;
      hb.sessionId in Cleanup(after, later) &&
      Submit(after, req, later, saveOk, sign).reply != Failure(SessionNotFound) &&
      Submit(after, req, later, saveOk, sign).reply != Failure(NoRecentHeartbeat)
  {
    var after := Heartbeat(t, hb, now).table;
    AssessOutcome(after[hb.sessionId], req, later, sign);
  }

  /** Cleanup never drops a session that could still pass the heartbeat check. */
  lemma CleanupSparesSubmittable(t: SessionTable, now: int, k: string)
    requires k in t && now - t[k].lastHeartbeat <= HeartbeatGraceMs
    ensures k in Cleanup(t, now) && Cleanup(t, now)[k] == t[k]
  {
  }

  /** Cleaning twice at the same time removes nothing more. */
  lemma CleanupIdempotent(t: SessionTable, now: int)
    ensures Cleanup(Cleanup(t, now), now) == Cleanup(t, now)
  {
  }

  /** Java measures the typed text in UTF-16 code units: 100 characters above U+FFFF
      typed in 3 s are 200 units, 800 wpm, and the submit is rejected as too fast. */
  lemma SupplementaryTextCountsTwice(s: SessionView, req: GameSubmitRequest, now: int, sign: string -> string)
    requires |req.typedText| == 100 && forall i :: 0 <= i < 100 ==> req.typedText[i] == '\U{1F600}'
    requires req.finishTime - s.startTime == 3000
    requires sign(req.sessionId + req.typedText) == req.signature && now - s.lastHeartbeat <= HeartbeatGraceMs
    ensures Length(req.typedText) == 200
    ensures Assess(s, req, now, sign) == Failure(WpmTooHigh)
  {
    LengthOfSupplementary(req.typedText);
    assert Wpm(200, 3000) == 800;
  }

  /** `charAt` sees a supplementary character as two units, so typing one exactly gives
      a streak of 2. */
  lemma SupplementaryComboCountsTwice()
    ensures MaxCombo("\U{1F600}", "\U{1F600}") == 2
  {
    MaxComboOfExactText("\U{1F600}");
    LengthOfSupplementary("\U{1F600}");
  }

  /** A stand-in signer for the example below. */
  function ExampleSign(x: string): string
  {
    "#" + x
  }

  lemma ExampleExpectedText()
    ensures Concat(["ls", "pwd"]) == "lspwd"
  {
    assert ["ls", "pwd"] == ["ls"] + ["pwd"];
    ConcatAppend(["ls"], ["pwd"]);
    ConcatSingle("ls");
    ConcatSingle("pwd");
  }

  lemma ExampleAssess(s: SessionView, req: GameSubmitRequest)
    requires s == SessionView("s1", "Anonymous", ["ls", "pwd"], 1000, 5000, 5)
    requires req == GameSubmitRequest("s1", "Anonymous", "lspwd", 7000, "#s1lspwd")
    ensures Assess(s, req, 7000, ExampleSign) == Success(ScoreSubmission("Anonymous", 10, 5, 7000))
  {
    assert req.sessionId + req.typedText == "s1lspwd";
    ExampleExpectedText();
    MaxComboOfExactText(req.typedText);
    assert Wpm(5, 6000) == 10;
  }

  /** One whole game: start with two commands, one heartbeat, then the exact text after
      six seconds: 5 characters give 10 wpm, a streak of 5, and the session is gone. */
  lemma ExampleGame()
    ensures var started := Start(map[], GameStartRequest(None), Some(["ls", "pwd"]), "s1", 1000, ExampleSign);
      var beat := Heartbeat(started.table, HeartbeatRequest("s1", 5), 5000);
      var req := GameSubmitRequest("s1", "Anonymous", "lspwd", 7000, "#s1lspwd");
      var done := Submit(beat.table, req, 7000, true, ExampleSign);
      started.reply == Success(GameStartResponse("s1", ["ls", "pwd"], 1000, "#s1")) &&
      done.reply == Success(SubmitReply(10, 5)) &&
      done.sent == Some(ScoreSubmission("Anonymous", 10, 5, 7000)) &&
      done.table == map[]
  {
    var started := Start(map[], GameStartRequest(None), Some(["ls", "pwd"]), "s1", 1000, ExampleSign);
    var beat := Heartbeat(started.table, HeartbeatRequest("s1", 5), 5000);
    var req := GameSubmitRequest("s1", "Anonymous", "lspwd", 7000, "#s1lspwd");
    assert ExampleSign("s1") == "#s1";
    assert beat.table == map["s1" := SessionView("s1", "Anonymous", ["ls", "pwd"], 1000, 5000, 5)];
    ExampleAssess(beat.table["s1"], req);
    assert beat.table - {"s1"} == map[];
  }
}
