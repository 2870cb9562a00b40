/** Wire codec of the `save.score` message: the optional username as a length-prefixed
    field (null written as length 0), then wpm and maxCombo as ints and the timestamp as
    a long. A length of 0 or less is read back as "" and no username bytes are skipped. */
module ScoreSubmissionCodec {
  import opened JavaInts
  import opened Wrappers
  import opened Buffers

  /** The wire form of `Messages.ScoreSubmission`: the same fields, strings as bytes.
      `username == None` is Java's `null`. */
  datatype ScoreSubmission = ScoreSubmission(username: Option<Bytes>, wpm: Int32, maxCombo: Int32, timestamp: Int64)

  function UsernameBytes(s: ScoreSubmission): seq<byte>
  {
    match s.username
    case None => Int32Bytes(0)
    case Some(b) => Field(b)
  }

  function Encode(s: ScoreSubmission): (e: seq<byte>)
    ensures |e| == 4 + (if s.username.Some? then |s.username.value| else 0) + 4 + 4 + 8
  {
    UsernameBytes(s) + Int32Bytes(s.wpm) + Int32Bytes(s.maxCombo) + Int64Bytes(s.timestamp)
  }

  function Decode(buf: seq<byte>, pos: int): Option<ScoreSubmission>
  {
    var length :- Int32At(buf, pos);
    var user :- if length > 0 then FieldAt(buf, pos) else Some(([], pos + 4));
    var wpm :- Int32At(buf, user.1);
    var maxCombo :- Int32At(buf, user.1 + 4);
    var timestamp :- Int64At(buf, user.1 + 8);
    Some(ScoreSubmission(Some(user.0), wpm, maxCombo, timestamp))
  }

  method EncodeToWire(buffer: Buffer, s: ScoreSubmission)
    modifies buffer
    ensures buffer.bytes == old(buffer.bytes) + Encode(s)
  {
    if s.username.None? {
      buffer.AppendInt(0);
    } else {
      buffer.AppendField(s.username.value);
    }
    ghost var u := buffer.bytes;
    buffer.AppendInt(s.wpm);
    buffer.AppendInt(s.maxCombo);
    buffer.AppendLong(s.timestamp);
    assert buffer.bytes == u + Int32Bytes(s.wpm) + Int32Bytes(s.maxCombo) + Int64Bytes(s.timestamp);
  }

  method DecodeFromWire(pos: int, buffer: Buffer) returns (r: Option<ScoreSubmission>)
    ensures r == Decode(buffer.bytes, pos)
  {
    var buf := buffer.bytes;
    var p := pos;
    var length :- Int32At(buf, p);
    p := p + 4;
    var username: Bytes := [];
    if length > 0 {
      var userBytes :- BytesAt(buf, p, p + length);
      username := userBytes;
      p := p + length;
    }
    var wpm :- Int32At(buf, p);
    p := p + 4;
    var maxCombo :- Int32At(buf, p);
    p := p + 4;
    var timestamp :- Int64At(buf, p);
    return Some(ScoreSubmission(Some(username), wpm, maxCombo, timestamp));
  }

  function Transform(s: ScoreSubmission): (r: ScoreSubmission)
    ensures r == s
  {
    s
  }

  /** Decoding is determined by the reads it makes once the username is known. */
  lemma DecodeFromReads(buf: seq<byte>, pos: int, s: ScoreSubmission, user: Bytes, p1: int, p2: int, p3: int)
    requires Int32At(buf, pos) == Some(|user|)
    requires (if |user| > 0 then FieldAt(buf, pos) else Some(([], pos + 4))) == Some((user, p1))
    requires Int32At(buf, p1) == Some(s.wpm) && p2 == p1 + 4
    requires Int32At(buf, p2) == Some(s.maxCombo) && p3 == p2 + 4
    requires Int64At(buf, p3) == Some(s.timestamp)
    ensures Decode(buf, pos) == Some(s.(username := Some(user)))
  {
  }

  /** The username part written at the front of the unread bytes reads back, null as "". */
  lemma UsernameAtFront(buf: seq<byte>, prefix: seq<byte>, s: ScoreSubmission, rest: seq<byte>)
    requires buf == prefix + (UsernameBytes(s) + rest)
    ensures var user: Bytes := if s.username.Some? then s.username.value else [];
      Int32At(buf, |prefix|) == Some(|user|) &&
      (if |user| > 0 then FieldAt(buf, |prefix|) else Some(([], |prefix| + 4))) == Some((user, |prefix + Field(user)|)) &&
      buf == (prefix + Field(user)) + rest
  {
    var user: Bytes := if s.username.Some? then s.username.value else [];
    assert UsernameBytes(s) == Field(user);
    assert buf == prefix + (Int32Bytes(|user|) + (user + rest));
    Int32AtFront(buf, prefix, |user|, user + rest);
    FieldAtFront(buf, prefix, user, rest);
  }

  lemma EncodeSplit(s: ScoreSubmission, suffix: seq<byte>)
    ensures Encode(s) + suffix == UsernameBytes(s) + (Int32Bytes(s.wpm) + (Int32Bytes(s.maxCombo) +
              (Int64Bytes(s.timestamp) + suffix)))
  {
  }

  /** Every non-null username, "" included, and every wpm, maxCombo and timestamp,
      negatives included, survive the wire; a null username comes back as "". */
  lemma RoundTrip(prefix: seq<byte>, s: ScoreSubmission, suffix: seq<byte>)
    ensures Decode(prefix + Encode(s) + suffix, |prefix|)
         == Some(if s.username.None? then s.(username := Some([])) else s)
  {
    var user: Bytes := if s.username.Some? then s.username.value else [];
    var f1, f2, f3, f4 := Field(user), Int32Bytes(s.wpm), Int32Bytes(s.maxCombo), Int64Bytes(s.timestamp);
    var t3 := f4 + suffix;
    var t2 := f3 + t3;
    var t1 := f2 + t2;
    var buf := prefix + Encode(s) + suffix;
    EncodeSplit(s, suffix);
    assert buf == prefix + (UsernameBytes(s) + t1);
    UsernameAtFront(buf, prefix, s, t1);
    Int32AtFront(buf, prefix + f1, s.wpm, t2);
    Int32AtFront(buf, prefix + f1 + f2, s.maxCombo, t3);
    Int64AtFront(buf, prefix + f1 + f2 + f3, s.timestamp, suffix);
    DecodeFromReads(buf, |prefix|, s, user, |prefix + f1|, |prefix + f1 + f2|, |prefix + f1 + f2 + f3|);
  }

  /** Concretely: a null username is delivered as "" over the wire but as null locally. */
  lemma NullUsernameDecodesAsEmpty(s: ScoreSubmission)
    requires s.username.None?
    ensures Decode(Encode(s), 0) == Some(s.(username := Some([])))
    ensures Decode(Encode(s), 0) != Some(Transform(s))
  {
    var e := Encode(s);
    assert [] + e + [] == e;
    RoundTrip([], s, []);
    assert s.(username := Some([])) != s;
  }
}
