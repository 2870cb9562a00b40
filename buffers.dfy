/** Vert.x's `Buffer` as the codecs use it: a growable byte sequence with big-endian
    `appendInt`/`appendLong`/`appendBytes` and bounds-checked `getInt`/`getLong`/`getBytes`. */
module Buffers {
  import opened JavaInts
  import opened Wrappers

  type byte = x: int | 0 <= x < 256

  /** A Java `byte[]`: its length is an `int`. */
  type Bytes = s: seq<byte> | |s| <= Int32Max

  /** The four bytes of an unsigned 32-bit value, most significant first. */
  function U32Bytes(u: nat): (r: seq<byte>)
    requires u < TwoTo32
    ensures |r| == 4
  {
    var u1 := u / 0x100;
    var u2 := u1 / 0x100;
    [u2 / 0x100, u2 % 0x100, u1 % 0x100, u % 0x100]
  }

  /** The unsigned value of four big-endian bytes. */
  function U32Of(s: seq<byte>): (r: nat)
    requires |s| == 4
    ensures r < TwoTo32
  {
    (((s[0] as int) * 0x100 + (s[1] as int)) * 0x100 + (s[2] as int)) * 0x100 + (s[3] as int)
  }

  lemma U32RoundTrip(u: nat)
    requires u < TwoTo32
    ensures U32Of(U32Bytes(u)) == u
  {
    var u1 := u / 0x100;
    var u2 := u1 / 0x100;
    assert u == u1 * 0x100 + u % 0x100;
    assert u1 == u2 * 0x100 + u1 % 0x100;
    assert u2 == (u2 / 0x100) * 0x100 + u2 % 0x100;
  }

  /** The four bytes `appendInt` writes: two's complement, big-endian. */
  function Int32Bytes(x: Int32): (r: seq<byte>)
    ensures |r| == 4
  {
    U32Bytes(if x < 0 then x + TwoTo32 else x)
  }

  /** What `getInt` reads from four bytes. */
  function Int32Of(s: seq<byte>): Int32
    requires |s| == 4
  {
    var u := U32Of(s);
    if u >= TwoTo31 then u - TwoTo32 else u
  }

  /** The eight bytes `appendLong` writes: two's complement, big-endian. */
  function Int64Bytes(x: Int64): (r: seq<byte>)
    ensures |r| == 8
  {
    var u := if x < 0 then x + TwoTo64 else x;
    U32Bytes(u / TwoTo32) + U32Bytes(u % TwoTo32)
  }

  /** What `getLong` reads from eight bytes. */
  function Int64Of(s: seq<byte>): Int64
    requires |s| == 8
  {
    var u := U32Of(s[..4]) * TwoTo32 + U32Of(s[4..]);
    if u >= TwoTo63 then u - TwoTo64 else u
  }

  /** Every `int`, negatives included, survives `appendInt` followed by `getInt`. */
  lemma Int32RoundTrip(x: Int32)
    ensures Int32Of(Int32Bytes(x)) == x
  {
    U32RoundTrip(if x < 0 then x + TwoTo32 else x);
  }

  /** Every `long`, negatives included, survives `appendLong` followed by `getLong`. */
  lemma Int64RoundTrip(x: Int64)
    ensures Int64Of(Int64Bytes(x)) == x
  {
    var u := if x < 0 then x + TwoTo64 else x;
    var s := Int64Bytes(x);
    assert s[..4] == U32Bytes(u / TwoTo32) && s[4..] == U32Bytes(u % TwoTo32);
    U32RoundTrip(u / TwoTo32);
    U32RoundTrip(u % TwoTo32);
  }

  /** `getInt(pos)`: the int at pos, or an IndexOutOfBoundsException (None). */
  function Int32At(buf: seq<byte>, pos: int): Option<Int32>
  {
    if 0 <= pos && pos + 4 <= |buf| then Some(Int32Of(buf[pos..pos + 4])) else None
  }

  /** `getLong(pos)`. */
  function Int64At(buf: seq<byte>, pos: int): Option<Int64>
  {
    if 0 <= pos && pos + 8 <= |buf| then Some(Int64Of(buf[pos..pos + 8])) else None
  }

  /** `getBytes(start, end)`: fails when end < start or the range leaves the buffer. */
  function BytesAt(buf: seq<byte>, start: int, end: int): Option<seq<byte>>
  {
    if 0 <= start <= end <= |buf| then Some(buf[start..end]) else None
  }

  /** A length-prefixed field as the codecs write it: `appendInt(len)` then `appendBytes`. */
  function Field(b: Bytes): (r: seq<byte>)
    ensures |r| == 4 + |b|
  {
    Int32Bytes(|b|) + b
  }

  /** Reading a length-prefixed field at pos: its bytes and the position after it. */
  function FieldAt(buf: seq<byte>, pos: int): Option<(Bytes, int)>
  {
    match Int32At(buf, pos)
    case None => None
    case Some(len) =>
      if 0 <= len && pos + 4 + len <= |buf| then Some((buf[pos + 4..pos + 4 + len], pos + 4 + len)) else None
  }

  lemma Int32AtEncoded(p: seq<byte>, x: Int32, rest: seq<byte>)
    ensures Int32At(p + Int32Bytes(x) + rest, |p|) == Some(x)
  {
    var buf := p + Int32Bytes(x) + rest;
    assert buf[|p|..|p| + 4] == Int32Bytes(x);
    Int32RoundTrip(x);
  }

  lemma Int64AtEncoded(p: seq<byte>, x: Int64, rest: seq<byte>)
    ensures Int64At(p + Int64Bytes(x) + rest, |p|) == Some(x)
  {
    var buf := p + Int64Bytes(x) + rest;
    assert buf[|p|..|p| + 8] == Int64Bytes(x);
    Int64RoundTrip(x);
  }

  /** A field written at |p| reads back whole, whatever precedes or follows it. */
  lemma FieldAtEncoded(p: seq<byte>, b: Bytes, rest: seq<byte>)
    ensures FieldAt(p + Field(b) + rest, |p|) == Some((b, |p| + 4 + |b|))
  {
    var buf := p + Field(b) + rest;
    assert buf == p + Int32Bytes(|b|) + (b + rest);
    Int32AtEncoded(p, |b|, b + rest);
    assert buf[|p| + 4..|p| + 4 + |b|] == b;
  }

  /** Moving the cursor past x: what was unread after p is unread after p + x. */
  lemma Regroup(buf: seq<byte>, p: seq<byte>, x: seq<byte>, rest: seq<byte>)
    requires buf == p + (x + rest)
    ensures buf == (p + x) + rest
    ensures |p + x| == |p| + |x|
  {
  }

  /** Reading a field at the front of the unread part `Field(b) + rest` consumes exactly it. */
  lemma FieldAtFront(buf: seq<byte>, p: seq<byte>, b: Bytes, rest: seq<byte>)
    requires buf == p + (Field(b) + rest)
    ensures FieldAt(buf, |p|) == Some((b, |p + Field(b)|))
    ensures buf == (p + Field(b)) + rest
  {
    assert buf == p + Field(b) + rest;
    FieldAtEncoded(p, b, rest);
  }

  lemma Int32AtFront(buf: seq<byte>, p: seq<byte>, x: Int32, rest: seq<byte>)
    requires buf == p + (Int32Bytes(x) + rest)
    ensures Int32At(buf, |p|) == Some(x)
    ensures |p + Int32Bytes(x)| == |p| + 4
    ensures buf == (p + Int32Bytes(x)) + rest
  {
    assert buf == p + Int32Bytes(x) + rest;
    Int32AtEncoded(p, x, rest);
  }

  lemma Int64AtFront(buf: seq<byte>, p: seq<byte>, x: Int64, rest: seq<byte>)
    requires buf == p + (Int64Bytes(x) + rest)
    ensures Int64At(buf, |p|) == Some(x)
    ensures |p + Int64Bytes(x)| == |p| + 8
    ensures buf == (p + Int64Bytes(x)) + rest
  {
    assert buf == p + Int64Bytes(x) + rest;
    Int64AtEncoded(p, x, rest);
  }

  /** The Vert.x buffer the codecs append to in place. */
  class Buffer {
    var bytes: seq<byte>

    constructor (initial: seq<byte>)
      ensures bytes == initial
    {
      bytes := initial;
    }

    method AppendInt(x: Int32)
      modifies this
      ensures bytes == old(bytes) + Int32Bytes(x)
    {
      bytes := bytes + Int32Bytes(x);
    }

    method AppendLong(x: Int64)
      modifies this
      ensures bytes == old(bytes) + Int64Bytes(x)
    {
      bytes := bytes + Int64Bytes(x);
    }

    method AppendBytes(b: seq<byte>)
      modifies this
      ensures bytes == old(bytes) + b
    {
      bytes := bytes + b;
    }

    /** The codecs' `appendInt(b.length)` followed by `appendBytes(b)`. */
    method AppendField(b: Bytes)
      modifies this
      ensures bytes == old(bytes) + Field(b)
    {
      AppendInt(|b|);
      AppendBytes(b);
    }
  }
}
