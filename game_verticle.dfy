/** `GameVerticle`: the session table and the `game.start`, `game.heartbeat`,
    `game.submit` handlers and the periodic cleanup. The clock reading, the new session
    id, the reply of `get.commands` and the reply of `save.score` are parameters; the
    HMAC signer is an uninterpreted function fixed at construction. */
module GameVerticles {
  import opened JavaInts
  import opened Wrappers
  import opened Messages
  import opened GameSessions
  import opened GameRules
  import opened JavaStrings

  /** The session table as a map from id to the sessions' current state. */
  type SessionTable = map<string, SessionView>

  datatype SubmitReply = SubmitReply(wpm: Int32, maxCombo: Int32)

  /** A handler's result: the table afterwards and the reply. */
  datatype Outcome<R> = Outcome(table: SessionTable, reply: Result<R, GameError>)

  /** The submit handler's result, with the submission sent to `save.score`, if any. */
  datatype SubmitOutcome = SubmitOutcome(
    table: SessionTable, reply: Result<SubmitReply, GameError>, sent: Option<ScoreSubmission>)

  function PlayerName(req: GameStartRequest): string
  {
    match req.username
    case None => AnonymousName
    case Some(name) => name
  }

  /** `handleGameStart`: when `get.commands` answers, a session under the new id starts
      at `now`, and the reply carries the commands and the signature of the id alone. */
  function Start(t: SessionTable, req: GameStartRequest, commandsReply: Option<seq<string>>,
                 sessionId: string, now: int, sign: string -> string): (o: Outcome<GameStartResponse>)
    ensures commandsReply.None? ==> o == Outcome(t, Failure(Internal))
    ensures commandsReply.Some? ==>
      o.reply == Success(GameStartResponse(sessionId, commandsReply.value, now, sign(sessionId))) &&
      o.table.Keys == t.Keys + {sessionId} &&
      o.table[sessionId] == SessionView(sessionId, PlayerName(req), commandsReply.value, now, now, 0) &&
      (forall k :: k in t && k != sessionId ==> o.table[k] == t[k])
  {
    match commandsReply
    case None => Outcome(t, Failure(Internal))
    case Some(commands) =>
      var view := SessionView(sessionId, PlayerName(req), commands, now, now, 0);
      Outcome(t[sessionId := view], Success(GameStartResponse(sessionId, commands, now, sign(sessionId))))
  }

  /** `handleHeartbeat`: an unknown id fails 404 and changes nothing; a known one gets
      its last heartbeat and keystroke count overwritten, and no other session changes. */
  function Heartbeat(t: SessionTable, req: HeartbeatRequest, now: int): (o: Outcome<()>)
    ensures req.sessionId !in t ==> o == Outcome(t, Failure(SessionNotFound))
    ensures req.sessionId in t ==>
      o.reply == Success(()) && o.table.Keys == t.Keys &&
      o.table[req.sessionId] == t[req.sessionId].(lastHeartbeat := now, keystrokes := req.progress) &&
      (forall k :: k in t && k != req.sessionId ==> o.table[k] == t[k])
  {
    if req.sessionId in t then
      var s := t[req.sessionId];
      Outcome(t[req.sessionId := s.(lastHeartbeat := now, keystrokes := req.progress)], Success(()))
    else
      Outcome(t, Failure(SessionNotFound))
  }

  /** The checks of `handleGameSubmit` on a known session, in the code's order: the
      signature over id + typed text, the heartbeat age, the rate, then the duration. */
  function Assess(s: SessionView, req: GameSubmitRequest, now: int, sign: string -> string): Result<ScoreSubmission, GameError>
  {
    if sign(req.sessionId + req.typedText) != req.signature then Failure(InvalidSignature)
    else if now - s.lastHeartbeat > HeartbeatGraceMs then Failure(NoRecentHeartbeat)
    else
      var durationMs := ClampDuration(req.finishTime - s.startTime);
      var wpm := Wpm(Length(req.typedText), durationMs);
      if wpm > MaxWpm then Failure(WpmTooHigh)
      else if durationMs < MinDurationMs then Failure(ImpossibleTime)
      else
        var maxCombo := MaxCombo(req.typedText, Concat(s.commands));
        Success(ScoreSubmission(req.username, wpm, maxCombo, req.finishTime))
  }

  /** `handleGameSubmit`: the session leaves the table only once `save.score` succeeded;
      every failure leaves the table as it was. */
  function Submit(t: SessionTable, req: GameSubmitRequest, now: int, saveOk: bool, sign: string -> string): (o: SubmitOutcome)
    ensures o.reply.Failure? ==> o.table == t
    ensures o.reply.Success? ==> o.table == t - {req.sessionId} && req.sessionId in t && saveOk
    ensures req.sessionId !in t ==> o == SubmitOutcome(t, Failure(SessionNotFound), None)
    ensures o.reply.Success? ==>
      o.sent.Some? && o.reply.value == SubmitReply(o.sent.value.wpm, o.sent.value.maxCombo)
  {
    if req.sessionId !in t then SubmitOutcome(t, Failure(SessionNotFound), None)
    else
      match Assess(t[req.sessionId], req, now, sign)
      case Failure(e) => SubmitOutcome(t, Failure(e), None)
      case Success(sub) =>
        if saveOk then SubmitOutcome(t - {req.sessionId}, Success(SubmitReply(sub.wpm, sub.maxCombo)), Some(sub))
        else SubmitOutcome(t, Failure(Internal), Some(sub))
  }

  /** `cleanupSessions`: exactly the sessions idle for more than five minutes go, the
      others stay unchanged. */
  function Cleanup(t: SessionTable, now: int): (r: SessionTable)
    ensures forall k :: k in r <==> k in t && now - t[k].lastHeartbeat <= SessionTimeoutMs
    ensures forall k :: k in r ==> r[k] == t[k]
  {
    map k | k in t && now - t[k].lastHeartbeat <= SessionTimeoutMs :: t[k]
  }

  class GameVerticle {
    var sessions: map<string, GameSession>
    const sign: string -> string

    /** Every session is filed under its own id. */
    ghost predicate Valid()
      reads this
    {
      forall k :: k in sessions ==> sessions[k].sessionId == k
    }

    ghost function Table(): SessionTable
      reads this, sessions.Values
    {
      map k | k in sessions :: sessions[k].View()
    }

    constructor (sign: string -> string)
      ensures Valid() && Table() == map[] && this.sign == sign
    {
      sessions := map[];
      this.sign := sign;
    }

    /** `commandsReply` is the answer to `get.commands` with `CommandsPerGame` (None when
        the request failed); `sessionId` is the random UUID and `now` the clock. */
    method HandleGameStart(req: GameStartRequest, commandsReply: Option<seq<string>>, sessionId: string, now: int)
      returns (r: Result<GameStartResponse, GameError>)
      requires Valid()
      modifies this
      ensures Valid()
      ensures Outcome(Table(), r) == Start(old(Table()), req, commandsReply, sessionId, now, sign)
    {
      if commandsReply.None? {
        return Failure(Internal);
      }
      var commands := commandsReply.value;
      var username := if req.username.None? then AnonymousName else req.username.value;
      var session := new GameSession(sessionId, username, commands, now);
      AddSession(session);
      r := Success(GameStartResponse(sessionId, commands, now, sign(sessionId)));
    }

    /** `sessions.put(sessionId, session)` for a session filed under its own id. */
    method AddSession(session: GameSession)
      requires Valid()
      modifies this
      ensures Valid()
      ensures Table() == old(Table())[session.sessionId := session.View()]
    {
      ghost var before := Table();
      sessions := sessions[session.sessionId := session];
      assert Table() == before[session.sessionId := session.View()] by {
        forall k | k in sessions && k != session.sessionId
          ensures sessions[k].View() == before[k]
        {
          assert sessions[k] == old(sessions)[k];
        }
      }
    }

    method HandleHeartbeat(req: HeartbeatRequest, now: int) returns (r: Result<(), GameError>)
      requires Valid()
      modifies sessions.Values
      ensures Valid()
      ensures Outcome(Table(), r) == Heartbeat(old(Table()), req, now)
    {
      if req.sessionId in sessions {
        var session := sessions[req.sessionId];
        session.UpdateHeartbeat(req.progress, now);
        r := Success(());
        assert forall k :: k in sessions && k != req.sessionId ==> sessions[k] != session;
      } else {
        r := Failure(SessionNotFound);
      }
    }

    /** `saveOk` is the outcome of the `save.score` request; `sent` is the submission
        handed to it. */
    method HandleGameSubmit(req: GameSubmitRequest, now: int, saveOk: bool)
      returns (r: Result<SubmitReply, GameError>, sent: Option<ScoreSubmission>)
      requires Valid()
      modifies this
      ensures Valid()
      ensures SubmitOutcome(Table(), r, sent) == Submit(old(Table()), req, now, saveOk, sign)
    {
      if req.sessionId !in sessions {
        return Failure(SessionNotFound), None;
      }
      var session := sessions[req.sessionId];
      ghost var view := session.View();
      ghost var before := Table();
      assert before[req.sessionId] == view;
      if sign(req.sessionId + req.typedText) != req.signature {
        return Failure(InvalidSignature), None;
      }
      if now - session.lastHeartbeat > HeartbeatGraceMs {
        return Failure(NoRecentHeartbeat), None;
      }
      var expected := BuildExpected(session.commands);
      var durationMs := req.finishTime - session.startTime;
      if durationMs <= 0 {
        durationMs := 1;
      }
      var wpm := Wpm(Length(req.typedText), durationMs);
      if wpm > MaxWpm {
        return Failure(WpmTooHigh), None;
      }
      if durationMs < MinDurationMs {
        return Failure(ImpossibleTime), None;
      }
      var maxCombo := CalculateMaxCombo(req.typedText, expected);
      var submission := ScoreSubmission(req.username, wpm, maxCombo, req.finishTime);
      assert Assess(view, req, now, sign) == Success(submission);
      sent := Some(submission);
      if saveOk {
        RemoveSession(req.sessionId);
        r := Success(SubmitReply(wpm, maxCombo));
      } else {
        r := Failure(Internal);
      }
    }

    /** `sessions.remove(sessionId)`. */
    method RemoveSession(sessionId: string)
      requires Valid()
      modifies this
      ensures Valid()
      ensures Table() == old(Table()) - {sessionId}
    {
      sessions := sessions - {sessionId};
    }

    method CleanupSessions(now: int)
      requires Valid()
      modifies this
      ensures Valid()
      ensures Table() == Cleanup(old(Table()), now)
    {
      sessions := map k | k in sessions && now - sessions[k].lastHeartbeat <= SessionTimeoutMs :: sessions[k];
    }
  }
}
