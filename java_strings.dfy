/** Java's `String` as UTF-16: `length()` and `charAt` count 16-bit code units, and a
    character above U+FFFF takes two of them (a surrogate pair). A Dafny `string` is a
    sequence of Unicode scalar values, so the game logic goes through `Utf16`. */
module JavaStrings {

  /** A UTF-16 code unit: a Java `char`. */
  type CodeUnit = x: int | 0 <= x < 0x1_0000

  const SupplementaryStart: int := 0x1_0000

  predicate IsSupplementary(c: char)
  {
    c as int >= SupplementaryStart
  }

  /** The code units of one character: itself below U+10000, otherwise a high
      surrogate (U+D800..U+DBFF) followed by a low one (U+DC00..U+DFFF). */
  function Utf16Char(c: char): (u: seq<CodeUnit>)
    ensures |u| == if IsSupplementary(c) then 2 else 1
    ensures IsSupplementary(c) ==> 0xD800 <= u[0] < 0xDC00 <= u[1] < 0xE000
  {
    var v := c as int;
    if v < SupplementaryStart then [v]
    else [0xD800 + (v - SupplementaryStart) / 0x400, 0xDC00 + (v - SupplementaryStart) % 0x400]
  }

  /** The character the code units of one character stand for. */
  function CodePointOf(u: seq<CodeUnit>): int
    requires |u| == 1 || |u| == 2
  {
    if |u| == 1 then u[0] else SupplementaryStart + (u[0] as int - 0xD800) * 0x400 + (u[1] as int - 0xDC00)
  }

  /** The encoding of one character loses nothing. */
  lemma Utf16CharRoundTrip(c: char)
    ensures CodePointOf(Utf16Char(c)) == c as int
  {
    if IsSupplementary(c) {
      var w := c as int - SupplementaryStart;
      assert w == (w / 0x400) * 0x400 + w % 0x400;
    }
  }

  /** The UTF-16 form of a string: what `charAt` indexes. */
  function Utf16(s: string): (u: seq<CodeUnit>)
    ensures |u| >= |s|
  {
    if s == [] then [] else Utf16Char(s[0]) + Utf16(s[1..])
  }

  /** `String.length()`. */
  function Length(s: string): nat
  {
    |Utf16(s)|
  }

  /** Encoding distributes over concatenation. */
  lemma {:induction false} Utf16Concat(a: string, b: string)
    ensures Utf16(a + b) == Utf16(a) + Utf16(b)
    decreases |a|
  {
    if a != [] {
      assert (a + b)[0] == a[0] && (a + b)[1..] == a[1..] + b;
      Utf16Concat(a[1..], b);
      assert Utf16(a + b) == Utf16Char(a[0]) + (Utf16(a[1..]) + Utf16(b));
    } else {
      assert a + b == b;
    }
  }

  /** Without supplementary characters, the UTF-16 form is the string itself, unit for
      character. */
  lemma {:induction false} Utf16Bmp(s: string)
    requires forall i :: 0 <= i < |s| ==> !IsSupplementary(s[i])
    ensures |Utf16(s)| == |s| && forall i :: 0 <= i < |s| ==> Utf16(s)[i] == s[i] as int
    decreases |s|
  {
    if s != [] {
      Utf16Bmp(s[1..]);
      forall i | 0 <= i < |s|
        ensures Utf16(s)[i] == s[i] as int
      {
        if i > 0 {
          assert s[1..][i - 1] == s[i];
        }
      }
    }
  }

  /** A string of supplementary characters only is twice as long to Java. */
  lemma {:induction false} LengthOfSupplementary(s: string)
    requires forall i :: 0 <= i < |s| ==> IsSupplementary(s[i])
    ensures Length(s) == 2 * |s|
    decreases |s|
  {
    if s != [] {
      assert forall i :: 0 <= i < |s[1..]| ==> s[1..][i] == s[i + 1];
      LengthOfSupplementary(s[1..]);
    }
  }
}
