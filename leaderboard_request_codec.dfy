/** Wire codec of the `get.leaderboard` request: the limit as one big-endian int. */
module LeaderboardRequestCodec {
  import opened JavaInts
  import opened Wrappers
  import opened Buffers

  datatype LeaderboardRequest = LeaderboardRequest(limit: Int32)

  /** The bytes `encodeToWire` appends. */
  function Encode(s: LeaderboardRequest): (e: seq<byte>)
    ensures |e| == 4
  {
    Int32Bytes(s.limit)
  }

  /** What `decodeFromWire(pos, buffer)` returns; None when `getInt` would throw. */
  function Decode(buf: seq<byte>, pos: int): Option<LeaderboardRequest>
  {
    var limit :- Int32At(buf, pos);
    Some(LeaderboardRequest(limit))
  }

  method EncodeToWire(buffer: Buffer, s: LeaderboardRequest)
    modifies buffer
    ensures buffer.bytes == old(buffer.bytes) + Encode(s)
  {
    buffer.AppendInt(s.limit);
  }

  method DecodeFromWire(pos: int, buffer: Buffer) returns (r: Option<LeaderboardRequest>)
    ensures r == Decode(buffer.bytes, pos)
  {
    var p := pos;
    var limit :- Int32At(buffer.bytes, p);
    return Some(LeaderboardRequest(limit));
  }

  /** Local delivery hands the receiver the sender's object itself. */
  function Transform(s: LeaderboardRequest): (r: LeaderboardRequest)
    ensures r == s
  {
    s
  }

  /** Any limit, negatives included, survives the wire, whatever surrounds it. */
  lemma RoundTrip(prefix: seq<byte>, s: LeaderboardRequest, suffix: seq<byte>)
    ensures Decode(prefix + Encode(s) + suffix, |prefix|) == Some(s)
  {
    Int32AtEncoded(prefix, s.limit, suffix);
  }

  /** Decoding looks only at the four bytes at pos: the bytes before it do not matter. */
  lemma DecodeIgnoresPrefix(p: seq<byte>, q: seq<byte>, rest: seq<byte>)
    ensures Decode(p + rest, |p|) == Decode(q + rest, |q|)
  {
    if 4 <= |rest| {
      assert (p + rest)[|p|..|p| + 4] == rest[..4] == (q + rest)[|q|..|q| + 4];
    }
  }
}
