/** Wire codec of the `game.start` reply: the session id field, the number of commands
    as an int followed by one length-prefixed field per command, the start time as a
    long, then the signature field. */
module GameStartResponseCodec {
  import opened JavaInts
  import opened Wrappers
  import opened Buffers

  /** A Java `List<String>` of commands: its `size()` is an `int`. */
  type Commands = s: seq<Bytes> | |s| <= Int32Max

  /** The wire form of `Messages.GameStartResponse`: the same fields, strings as bytes. */
  datatype GameStartResponse = GameStartResponse(
    sessionId: Bytes, commands: Commands, startTime: Int64, signature: Bytes)

  /** Σ (4 + |c|) over the commands. */
  function FieldsLength(cmds: seq<Bytes>): nat
  {
    if cmds == [] then 0 else 4 + |cmds[0]| + FieldsLength(cmds[1..])
  }

  /** The length-prefixed fields of the commands, in list order. */
  function Fields(cmds: seq<Bytes>): (e: seq<byte>)
    ensures |e| == FieldsLength(cmds)
  {
    if cmds == [] then [] else Field(cmds[0]) + Fields(cmds[1..])
  }

  function Encode(s: GameStartResponse): (e: seq<byte>)
    ensures |e| == 4 + |s.sessionId| + 4 + FieldsLength(s.commands) + 8 + 4 + |s.signature|
  {
    Field(s.sessionId) + Int32Bytes(|s.commands|) + Fields(s.commands) + Int64Bytes(s.startTime) + Field(s.signature)
  }

  /** Reading n length-prefixed fields from pos on: the fields and the position after them. */
  function FieldsAt(buf: seq<byte>, pos: int, n: nat): (r: Option<(seq<Bytes>, int)>)
    ensures r.Some? ==> |r.value.0| == n
    decreases n
  {
    if n == 0 then Some(([], pos))
    else
      var first :- FieldAt(buf, pos);
      var rest :- FieldsAt(buf, first.1, n - 1);
      Some(([first.0] + rest.0, rest.1))
  }

  /** The decoder fails (an exception in Java) when a read leaves the buffer, a length is
      negative, or the count is negative (`new ArrayList<>(count)` rejects it). */
  function Decode(buf: seq<byte>, pos: int): Option<GameStartResponse>
  {
    var sid :- FieldAt(buf, pos);
    var count :- Int32At(buf, sid.1);
    if count < 0 then None
    else
      var cmds :- FieldsAt(buf, sid.1 + 4, count);
      DecodeTail(buf, sid.0, cmds.0, cmds.1)
  }

  /** The reads after the commands: the start time, then the signature. */
  function DecodeTail(buf: seq<byte>, sessionId: Bytes, commands: Commands, pos: int): Option<GameStartResponse>
  {
    var startTime :- Int64At(buf, pos);
    var sig :- FieldAt(buf, pos + 8);
    Some(GameStartResponse(sessionId, commands, startTime, sig.0))
  }

  /** Writing one more command appends its field: the step of the encoding loop. */
  lemma {:induction false} FieldsSnoc(cmds: seq<Bytes>, c: Bytes)
    ensures Fields(cmds + [c]) == Fields(cmds) + Field(c)
    decreases |cmds|
  {
    if cmds == [] {
      assert [] + [c] == [c];
      assert Fields([c]) == Field(c) + Fields([]);
    } else {
      assert (cmds + [c])[0] == cmds[0];
      assert (cmds + [c])[1..] == cmds[1..] + [c];
      FieldsSnoc(cmds[1..], c);
    }
  }

  /** The `for` loop of `encodeToWire` writing one field per command. */
  method AppendFields(buffer: Buffer, commands: seq<Bytes>)
    modifies buffer
    ensures buffer.bytes == old(buffer.bytes) + Fields(commands)
  {
    for i := 0 to |commands|
      invariant buffer.bytes == old(buffer.bytes) + Fields(commands[..i])
    {
      var cmd := commands[i];
      assert commands[..i + 1] == commands[..i] + [cmd];
      buffer.AppendField(cmd);
      FieldsSnoc(commands[..i], cmd);
    }
    assert commands[..|commands|] == commands;
  }

  /** The session id, the count and the commands: the part of `encodeToWire` before the
      start time. */
  method AppendHead(buffer: Buffer, s: GameStartResponse)
    modifies buffer
    ensures buffer.bytes == old(buffer.bytes) + (Field(s.sessionId) + Int32Bytes(|s.commands|) + Fields(s.commands))
  {
    buffer.AppendField(s.sessionId);
    buffer.AppendInt(|s.commands|);
    AppendFields(buffer, s.commands);
  }

  method EncodeToWire(buffer: Buffer, s: GameStartResponse)
    modifies buffer
    ensures buffer.bytes == old(buffer.bytes) + Encode(s)
  {
    AppendHead(buffer, s);
    buffer.AppendLong(s.startTime);
    buffer.AppendField(s.signature);
  }

  /** The reads still to come, after the items already decoded. */
  function Prepend(done: seq<Bytes>, rest: Option<(seq<Bytes>, int)>): Option<(seq<Bytes>, int)>
  {
    match rest
    case None => None
    case Some(r) => Some((done + r.0, r.1))
  }

  lemma PrependNothing(rest: Option<(seq<Bytes>, int)>)
    ensures Prepend([], rest) == rest
  {
    if rest.Some? {
      assert [] + rest.value.0 == rest.value.0;
    }
  }

  lemma PrependTwice(a: seq<Bytes>, b: seq<Bytes>, rest: Option<(seq<Bytes>, int)>)
    ensures Prepend(a, Prepend(b, rest)) == Prepend(a + b, rest)
  {
    if rest.Some? {
      assert a + (b + rest.value.0) == a + b + rest.value.0;
    }
  }

  /** The `for` loop of `decodeFromWire` reading `n` command fields from `pos` on. */
  method ReadFields(buf: seq<byte>, pos: int, n: nat) returns (r: Option<(seq<Bytes>, int)>)
    ensures r == FieldsAt(buf, pos, n)
  {
    var commands: seq<Bytes> := [];
    var p := pos;
    PrependNothing(FieldsAt(buf, pos, n));
    var i := 0;
    while i < n
      invariant 0 <= i <= n
      invariant |commands| == i
      invariant FieldsAt(buf, pos, n) == Prepend(commands, FieldsAt(buf, p, n - i))
    {
      var cmd := FieldAt(buf, p);
      if cmd.None? {
        return None;
      }
      FieldsAtStep(buf, p, n - i, cmd.value.0, cmd.value.1);
      PrependTwice(commands, [cmd.value.0], FieldsAt(buf, cmd.value.1, n - i - 1));
      commands := commands + [cmd.value.0];
      p := cmd.value.1;
      i := i + 1;
    }
    assert commands + [] == commands;
    return Some((commands, p));
  }

  method DecodeFromWire(pos: int, buffer: Buffer) returns (r: Option<GameStartResponse>)
    ensures r == Decode(buffer.bytes, pos)
  {
    var buf := buffer.bytes;
    var p := pos;
    var sessionId :- FieldAt(buf, p);
    p := sessionId.1;
    var commandsSize :- Int32At(buf, p);
    p := p + 4;
    if commandsSize < 0 {
      return None;
    }
    var commands :- ReadFields(buf, p, commandsSize);
    p := commands.1;
    var startTime :- Int64At(buf, p);
    p := p + 8;
    var signature :- FieldAt(buf, p);
    return Some(GameStartResponse(sessionId.0, commands.0, startTime, signature.0));
  }

  function Transform(s: GameStartResponse): (r: GameStartResponse)
    ensures r == s
  {
    s
  }

  /** The commands written by `Fields` are read back by `FieldsAt`, in order, and the
      cursor lands right after them. */
  lemma {:induction false} FieldsRoundTrip(buf: seq<byte>, prefix: seq<byte>, cmds: seq<Bytes>, rest: seq<byte>)
    requires buf == prefix + (Fields(cmds) + rest)
    ensures FieldsAt(buf, |prefix|, |cmds|) == Some((cmds, |prefix + Fields(cmds)|))
    ensures buf == (prefix + Fields(cmds)) + rest
    decreases |cmds|
  {
    Regroup(buf, prefix, Fields(cmds), rest);
    if cmds != [] {
      assert buf == prefix + (Field(cmds[0]) + (Fields(cmds[1..]) + rest));
      FieldAtFront(buf, prefix, cmds[0], Fields(cmds[1..]) + rest);
      var front := prefix + Field(cmds[0]);
      FieldsRoundTrip(buf, front, cmds[1..], rest);
      FieldsAtStep(buf, |prefix|, |cmds|, cmds[0], |front|);
      var after := |front + Fields(cmds[1..])|;
      assert after == |prefix + Fields(cmds)| by {
        assert Fields(cmds) == Field(cmds[0]) + Fields(cmds[1..]);
      }
      assert [cmds[0]] + cmds[1..] == cmds;
      assert Prepend([cmds[0]], Some((cmds[1..], after))) == Some((cmds, after));
    }
  }

  /** One step of `FieldsAt`: the first field, then the others. */
  lemma FieldsAtStep(buf: seq<byte>, pos: int, n: nat, first: Bytes, next: int)
    requires n > 0 && FieldAt(buf, pos) == Some((first, next))
    ensures FieldsAt(buf, pos, n) == Prepend([first], FieldsAt(buf, next, n - 1))
  {
  }

  lemma DecodeFromReads(buf: seq<byte>, pos: int, s: GameStartResponse, p1: int, p2: int, p3: int, p4: int, p5: int)
    requires FieldAt(buf, pos) == Some((s.sessionId, p1))
    requires Int32At(buf, p1) == Some(|s.commands|) && p2 == p1 + 4
    requires FieldsAt(buf, p2, |s.commands|) == Some((s.commands, p3))
    requires Int64At(buf, p3) == Some(s.startTime) && p4 == p3 + 8
    requires FieldAt(buf, p4) == Some((s.signature, p5))
    ensures Decode(buf, pos) == Some(s)
  {
    var cmds := FieldsAt(buf, p2, |s.commands|);
    assert cmds.value.0 == s.commands && cmds.value.1 == p3;
  }

  lemma EncodeSplit(s: GameStartResponse, suffix: seq<byte>)
    ensures Encode(s) + suffix == Field(s.sessionId) + (Int32Bytes(|s.commands|) + (Fields(s.commands) +
              (Int64Bytes(s.startTime) + (Field(s.signature) + suffix))))
  {
  }

  /** Every reply survives the wire, its commands in order and all of them. */
  lemma RoundTrip(prefix: seq<byte>, s: GameStartResponse, suffix: seq<byte>)
    ensures Decode(prefix + Encode(s) + suffix, |prefix|) == Some(s)
  {
    var f1, f2, f3, f4, f5 := Field(s.sessionId), Int32Bytes(|s.commands|), Fields(s.commands),
                              Int64Bytes(s.startTime), Field(s.signature);
    var t4 := f5 + suffix;
    var t3 := f4 + t4;
    var t2 := f3 + t3;
    var t1 := f2 + t2;
    var buf := prefix + Encode(s) + suffix;
    EncodeSplit(s, suffix);
    assert buf == prefix + (f1 + t1);
    FieldAtFront(buf, prefix, s.sessionId, t1);
    Int32AtFront(buf, prefix + f1, |s.commands|, t2);
    FieldsRoundTrip(buf, prefix + f1 + f2, s.commands, t3);
    Int64AtFront(buf, prefix + f1 + f2 + f3, s.startTime, t4);
    FieldAtFront(buf, prefix + f1 + f2 + f3 + f4, s.signature, suffix);
    DecodeFromReads(buf, |prefix|, s, |prefix + f1|, |prefix + f1 + f2|, |prefix + f1 + f2 + f3|,
                    |prefix + f1 + f2 + f3 + f4|, |prefix + f1 + f2 + f3 + f4 + f5|);
  }

  /** The count field right after the session id is `commands.size()`. */
  lemma CountField(s: GameStartResponse)
    ensures Encode(s)[4 + |s.sessionId|..8 + |s.sessionId|] == Int32Bytes(|s.commands|)
  {
    var e := Encode(s);
    assert e == Field(s.sessionId) + Int32Bytes(|s.commands|) + (Fields(s.commands) + Int64Bytes(s.startTime) + Field(s.signature));
  }
}
