/** Wire codec of the `game.start` request: the optional username as a length-prefixed
    field, with `null` written as length 0 and a length of 0 or less read back as `null`. */
module GameStartRequestCodec {
  import opened JavaInts
  import opened Wrappers
  import opened Buffers

  /** The wire form of `Messages.GameStartRequest`: the same fields, strings as bytes.
      `username == None` is Java's `null`. */
  datatype GameStartRequest = GameStartRequest(username: Option<Bytes>)

  function Encode(s: GameStartRequest): (e: seq<byte>)
    ensures |e| == 4 + (if s.username.Some? then |s.username.value| else 0)
  {
    match s.username
    case None => Int32Bytes(0)
    case Some(b) => Field(b)
  }

  function Decode(buf: seq<byte>, pos: int): Option<GameStartRequest>
  {
    var length :- Int32At(buf, pos);
    if length > 0 then
      var b :- BytesAt(buf, pos + 4, pos + 4 + length);
      Some(GameStartRequest(Some(b)))
    else
      Some(GameStartRequest(None))
  }

  method EncodeToWire(buffer: Buffer, s: GameStartRequest)
    modifies buffer
    ensures buffer.bytes == old(buffer.bytes) + Encode(s)
  {
    if s.username.None? {
      buffer.AppendInt(0);
    } else {
      buffer.AppendField(s.username.value);
    }
  }

  method DecodeFromWire(pos: int, buffer: Buffer) returns (r: Option<GameStartRequest>)
    ensures r == Decode(buffer.bytes, pos)
  {
    var buf := buffer.bytes;
    var p := pos;
    var length :- Int32At(buf, p);
    p := p + 4;
    var username: Option<Bytes> := None;
    if length > 0 {
      var bytes :- BytesAt(buf, p, p + length);
      username := Some(bytes);
      p := p + length;
    }
    return Some(GameStartRequest(username));
  }

  function Transform(s: GameStartRequest): (r: GameStartRequest)
    ensures r == s
  {
    s
  }

  /** The wire form of a request: null and "" both become null, every other username
      comes back byte for byte. */
  lemma RoundTrip(prefix: seq<byte>, s: GameStartRequest, suffix: seq<byte>)
    ensures Decode(prefix + Encode(s) + suffix, |prefix|)
         == Some(if s.username == Some([]) then GameStartRequest(None) else s)
  {
    match s.username
    case None =>
      Int32AtEncoded(prefix, 0, suffix);
    case Some(b) =>
      var buf := prefix + Encode(s) + suffix;
      assert buf == prefix + Int32Bytes(|b|) + (b + suffix);
      Int32AtEncoded(prefix, |b|, b + suffix);
      assert buf[|prefix| + 4..|prefix| + 4 + |b|] == b;
  }

  /** null and "" are written identically, as the single length 0. */
  lemma NullAndEmptyEncodeAlike()
    ensures Encode(GameStartRequest(None)) == Encode(GameStartRequest(Some([]))) == Int32Bytes(0)
  {
    assert Field([]) == Int32Bytes(0) + [];
  }

  /** So "" does not survive the wire: the receiver sees null. */
  lemma EmptyUsernameDoesNotRoundTrip(prefix: seq<byte>, suffix: seq<byte>)
    ensures Decode(prefix + Encode(GameStartRequest(Some([]))) + suffix, |prefix|)
         != Some(Transform(GameStartRequest(Some([]))))
  {
    RoundTrip(prefix, GameStartRequest(Some([])), suffix);
  }
}
