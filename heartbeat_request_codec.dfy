/** Wire codec of the `game.heartbeat` request: the session id as a length-prefixed
    field, then the progress as a big-endian int. */
module HeartbeatRequestCodec {
  import opened JavaInts
  import opened Wrappers
  import opened Buffers

  /** The wire form of `Messages.HeartbeatRequest`: the same fields, strings as bytes. */
  datatype HeartbeatRequest = HeartbeatRequest(sessionId: Bytes, progress: Int32)

  function Encode(s: HeartbeatRequest): (e: seq<byte>)
    ensures |e| == 4 + |s.sessionId| + 4
  {
    Field(s.sessionId) + Int32Bytes(s.progress)
  }

  function Decode(buf: seq<byte>, pos: int): Option<HeartbeatRequest>
  {
    var sid :- FieldAt(buf, pos);
    var progress :- Int32At(buf, sid.1);
    Some(HeartbeatRequest(sid.0, progress))
  }

  method EncodeToWire(buffer: Buffer, s: HeartbeatRequest)
    modifies buffer
    ensures buffer.bytes == old(buffer.bytes) + Encode(s)
  {
    buffer.AppendField(s.sessionId);
    buffer.AppendInt(s.progress);
  }

  method DecodeFromWire(pos: int, buffer: Buffer) returns (r: Option<HeartbeatRequest>)
    ensures r == Decode(buffer.bytes, pos)
  {
    var buf := buffer.bytes;
    var p := pos;
    var sessionLen :- Int32At(buf, p);
    p := p + 4;
    var sessionId :- BytesAt(buf, p, p + sessionLen);
    p := p + sessionLen;
    var progress :- Int32At(buf, p);
    return Some(HeartbeatRequest(sessionId, progress));
  }

  function Transform(s: HeartbeatRequest): (r: HeartbeatRequest)
    ensures r == s
  {
    s
  }

  /** The session id and any progress value, negatives included, survive the wire. */
  lemma RoundTrip(prefix: seq<byte>, s: HeartbeatRequest, suffix: seq<byte>)
    ensures Decode(prefix + Encode(s) + suffix, |prefix|) == Some(s)
  {
    var buf := prefix + Encode(s) + suffix;
    assert buf == prefix + Field(s.sessionId) + (Int32Bytes(s.progress) + suffix);
    FieldAtEncoded(prefix, s.sessionId, Int32Bytes(s.progress) + suffix);
    assert buf == (prefix + Field(s.sessionId)) + Int32Bytes(s.progress) + suffix;
    Int32AtEncoded(prefix + Field(s.sessionId), s.progress, suffix);
  }
}
