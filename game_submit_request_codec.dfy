/** Wire codec of the `game.submit` request: sessionId, username and typedText as
    length-prefixed fields, finishTime as a long, then the signature field. */
module GameSubmitRequestCodec {
  import opened JavaInts
  import opened Wrappers
  import opened Buffers

  /** The wire form of `Messages.GameSubmitRequest`: the same fields, strings as bytes. */
  datatype GameSubmitRequest = GameSubmitRequest(
    sessionId: Bytes, username: Bytes, typedText: Bytes, finishTime: Int64, signature: Bytes)

  /** The fields in the order they are written: sessionId, username, typedText,
      finishTime, signature. */
  function Encode(s: GameSubmitRequest): (e: seq<byte>)
    ensures |e| == 4 + |s.sessionId| + 4 + |s.username| + 4 + |s.typedText| + 8 + 4 + |s.signature|
  {
    Field(s.sessionId) + Field(s.username) + Field(s.typedText) + Int64Bytes(s.finishTime) + Field(s.signature)
  }

  function Decode(buf: seq<byte>, pos: int): Option<GameSubmitRequest>
  {
    var sid :- FieldAt(buf, pos);
    var user :- FieldAt(buf, sid.1);
    var text :- FieldAt(buf, user.1);
    var finish :- Int64At(buf, text.1);
    var sig :- FieldAt(buf, text.1 + 8);
    Some(GameSubmitRequest(sid.0, user.0, text.0, finish, sig.0))
  }

  method EncodeToWire(buffer: Buffer, s: GameSubmitRequest)
    modifies buffer
    ensures buffer.bytes == old(buffer.bytes) + Encode(s)
  {
    buffer.AppendField(s.sessionId);
    buffer.AppendField(s.username);
    buffer.AppendField(s.typedText);
    buffer.AppendLong(s.finishTime);
    buffer.AppendField(s.signature);
  }

  /** The `_pos` cursor walks the fields in order; each `getInt` length followed by
      `getBytes` is one `FieldAt` read. */
  method DecodeFromWire(pos: int, buffer: Buffer) returns (r: Option<GameSubmitRequest>)
    ensures r == Decode(buffer.bytes, pos)
  {
    var buf := buffer.bytes;
    var p := pos;
    var sessionId :- FieldAt(buf, p);
    p := sessionId.1;
    var username :- FieldAt(buf, p);
    p := username.1;
    var typedText :- FieldAt(buf, p);
    p := typedText.1;
    var finishTime :- Int64At(buf, p);
    p := p + 8;
    var signature :- FieldAt(buf, p);
    return Some(GameSubmitRequest(sessionId.0, username.0, typedText.0, finishTime, signature.0));
  }

  function Transform(s: GameSubmitRequest): (r: GameSubmitRequest)
    ensures r == s
  {
    s
  }

  /** Decoding is determined by the five reads it makes. */
  lemma DecodeFromReads(buf: seq<byte>, pos: int, s: GameSubmitRequest, p1: int, p2: int, p3: int, p4: int, p5: int)
    requires FieldAt(buf, pos) == Some((s.sessionId, p1))
    requires FieldAt(buf, p1) == Some((s.username, p2))
    requires FieldAt(buf, p2) == Some((s.typedText, p3))
    requires Int64At(buf, p3) == Some(s.finishTime) && p4 == p3 + 8
    requires FieldAt(buf, p4) == Some((s.signature, p5))
    ensures Decode(buf, pos) == Some(s)
  {
  }

  /** Every request, any 64-bit finishTime included, survives the wire. */
  lemma RoundTrip(prefix: seq<byte>, s: GameSubmitRequest, suffix: seq<byte>)
    ensures Decode(prefix + Encode(s) + suffix, |prefix|) == Some(s)
  {
    var f1, f2, f3, f4, f5 := Field(s.sessionId), Field(s.username), Field(s.typedText),
                              Int64Bytes(s.finishTime), Field(s.signature);
    var t4 := f5 + suffix;
    var t3 := f4 + t4;
    var t2 := f3 + t3;
    var t1 := f2 + t2;
    var buf := prefix + Encode(s) + suffix;
    assert buf == prefix + (f1 + t1);
    FieldAtFront(buf, prefix, s.sessionId, t1);
    FieldAtFront(buf, prefix + f1, s.username, t2);
    FieldAtFront(buf, prefix + f1 + f2, s.typedText, t3);
    Int64AtFront(buf, prefix + f1 + f2 + f3, s.finishTime, t4);
    FieldAtFront(buf, prefix + f1 + f2 + f3 + f4, s.signature, suffix);
    DecodeFromReads(buf, |prefix|, s, |prefix + f1|, |prefix + f1 + f2|, |prefix + f1 + f2 + f3|,
                    |prefix + f1 + f2 + f3 + f4|, |prefix + f1 + f2 + f3 + f4 + f5|);
  }
}
