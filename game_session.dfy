/** `GameSession`: one running game. Its id, player, commands and start time are final;
    the last heartbeat time and the reported keystroke count are overwritten in place. */
module GameSessions {
  import opened JavaInts

  /** The state of a session at one moment. */
  datatype SessionView = SessionView(
    sessionId: string, username: string, commands: seq<string>, startTime: int,
    lastHeartbeat: int, keystrokes: Int32)

  class GameSession {
    const sessionId: string
    const username: string
    const commands: seq<string>
    const startTime: int
    var lastHeartbeat: int
    var keystrokes: Int32

    /** A new session counts as having sent its heartbeat at the start, with no keystrokes. */
    constructor (sessionId: string, username: string, commands: seq<string>, startTime: int)
      ensures View() == SessionView(sessionId, username, commands, startTime, startTime, 0)
    {
      this.sessionId := sessionId;
      this.username := username;
      this.commands := commands;
      this.startTime := startTime;
      lastHeartbeat := startTime;
      keystrokes := 0;
    }

    function View(): SessionView
      reads this
    {
      SessionView(sessionId, username, commands, startTime, lastHeartbeat, keystrokes)
    }

    /** `updateHeartbeat(k)` at clock reading `now`: both mutable fields are overwritten
        whatever they held (no monotonicity check), and nothing else changes. */
    method UpdateHeartbeat(keystrokes: Int32, now: int)
      modifies this
      ensures View() == old(View()).(lastHeartbeat := now, keystrokes := keystrokes)
    {
      lastHeartbeat := now;
      this.keystrokes := keystrokes;
    }
  }
}
