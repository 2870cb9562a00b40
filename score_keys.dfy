/** The RocksDB keys of the leaderboard, `score:%010d:%d:%s` over the total score, the
    timestamp and the player, and the bytewise order RocksDB keeps them in. */
module ScoreKeys {
  /** Powers of ten. */
  function Pow10(k: nat): (r: nat)
    ensures r >= 1
  {
    if k == 0 then 1 else 10 * Pow10(k - 1)
  }

  predicate IsDigit(c: char)
  {
    '0' <= c <= '9'
  }

  predicate AllDigits(s: string)
  {
    forall i :: 0 <= i < |s| ==> IsDigit(s[i])
  }

  function DigitChar(d: nat): (c: char)
    requires d < 10
    ensures IsDigit(c)
  {
    (48 + d) as char
  }

  function DigitValue(c: char): nat
    requires IsDigit(c)
  {
    (c as int) - 48
  }

  /** The decimal numeral of n without leading zeros ("0" for 0). */
  function Digits(n: nat): (s: string)
    ensures |s| >= 1 && AllDigits(s)
  {
    if n < 10 then [DigitChar(n)] else Digits(n / 10) + [DigitChar(n % 10)]
  }

  /** The number a string of digits denotes, most significant digit first. */
  function Value(s: string): nat
    requires AllDigits(s)
  {
    if s == [] then 0 else DigitValue(s[0]) * Pow10(|s| - 1) + Value(s[1..])
  }

  /** k zeros. */
  function Zeros(k: nat): (s: string)
    ensures |s| == k && AllDigits(s)
  {
    if k == 0 then "" else "0" + Zeros(k - 1)
  }

  /** Zero padding on the left up to `width` characters. */
  function Pad(s: string, width: nat): (r: string)
    ensures |r| == if |s| >= width then |s| else width
  {
    if |s| >= width then s else Zeros(width - |s|) + s
  }

  /** `String.format("%010d", x)`: width 10 counting the sign, zero padded. */
  function Format010(x: int): string
  {
    if x >= 0 then Pad(Digits(x), 10) else "-" + Pad(Digits(-x), 9)
  }

  /** `String.format("%d", x)`. */
  function Decimal(x: int): string
  {
    if x >= 0 then Digits(x) else "-" + Digits(-x)
  }

  const ScorePrefix: string := "score:"

  /** The key `flushBuffer` stores a submission under. */
  function Key(totalScore: int, timestamp: int, username: string): string
  {
    ScorePrefix + Format010(totalScore) + ":" + Decimal(timestamp) + ":" + username
  }

  /** RocksDB's default comparator: bytewise lexicographic order of the UTF-8 key, which
      is the lexicographic order of the code points. */
  predicate Less(a: string, b: string)
  {
    if a == [] then b != []
    else b != [] && (a[0] < b[0] || (a[0] == b[0] && Less(a[1..], b[1..])))
  }

  // ---- decimal numerals ----

  lemma AllDigitsConcat(a: string, b: string)
    requires AllDigits(a) && AllDigits(b)
    ensures AllDigits(a + b)
  {
    assert forall i :: 0 <= i < |a + b| ==> (a + b)[i] == if i < |a| then a[i] else b[i - |a|];
  }

  lemma {:induction false} ValueBound(s: string)
    requires AllDigits(s)
    ensures Value(s) < Pow10(|s|)
    decreases |s|
  {
    if s != [] {
      ValueBound(s[1..]);
      var d, p := DigitValue(s[0]), Pow10(|s| - 1);
      MulMono(d, 9, p);
      var q := d * p;
      assert Value(s) == q + Value(s[1..]);
      assert Pow10(|s|) == 10 * p;
    }
  }

  lemma MulMono(a: nat, b: nat, c: nat)
    requires a <= b
    ensures a * c <= b * c
  {
  }

  /** Appending a digit multiplies the value by ten and adds the digit. */
  lemma MulTen(d: int, p: int)
    ensures d * (10 * p) == (d * p) * 10
  {
  }

  lemma {:induction false} ValueSnoc(s: string, c: char)
    requires AllDigits(s) && IsDigit(c)
    ensures AllDigits(s + [c]) && Value(s + [c]) == Value(s) * 10 + DigitValue(c)
    decreases |s|
  {
    AllDigitsConcat(s, [c]);
    if s == [] {
      assert [] + [c] == [c];
    } else {
      var t := s + [c];
      assert t[0] == s[0] && t[1..] == s[1..] + [c];
      ValueSnoc(s[1..], c);
      var d, p := DigitValue(s[0]), Pow10(|s| - 1);
      var q := d * p;
      MulTen(d, p);
      calc {
        Value(t);
        d * Pow10(|s|) + Value(s[1..] + [c]);
        q * 10 + Value(s[1..]) * 10 + DigitValue(c);
        (q + Value(s[1..])) * 10 + DigitValue(c);
      }
    }
  }

  /** `Digits` writes n: reading the numeral back gives n. */
  lemma {:induction false} DigitsValue(n: nat)
    ensures Value(Digits(n)) == n
    decreases n
  {
    if n >= 10 {
      DigitsValue(n / 10);
      ValueSnoc(Digits(n / 10), DigitChar(n % 10));
    }
  }

  /** A number below 10^k has at most k digits. */
  lemma {:induction false} DigitsLength(n: nat, k: nat)
    requires 1 <= k && n < Pow10(k)
    ensures |Digits(n)| <= k
    decreases n
  {
    if n >= 10 {
      assert k >= 2;
      assert n / 10 < Pow10(k - 1);
      DigitsLength(n / 10, k - 1);
    }
  }

  lemma {:induction false} ValueZerosThen(k: nat, s: string)
    requires AllDigits(s)
    ensures AllDigits(Zeros(k) + s) && Value(Zeros(k) + s) == Value(s)
    decreases k
  {
    AllDigitsConcat(Zeros(k), s);
    if k == 0 {
      assert Zeros(k) + s == s;
    } else {
      var t := Zeros(k) + s;
      assert t[0] == '0' && t[1..] == Zeros(k - 1) + s;
      ValueZerosThen(k - 1, s);
      assert Value(t) == DigitValue(t[0]) * Pow10(|t| - 1) + Value(t[1..]);
      assert DigitValue(t[0]) == 0;
    }
  }

  /** For 0 <= x < 10^10 the padded field is ten digits denoting x. */
  lemma Format010Digits(x: int)
    requires 0 <= x < Pow10(10)
    ensures |Format010(x)| == 10 && AllDigits(Format010(x)) && Value(Format010(x)) == x
  {
    DigitsLength(x, 10);
    DigitsValue(x);
    ValueZerosThen(10 - |Digits(x)|, Digits(x));
  }

  // ---- the lexicographic order ----

  lemma {:induction false} LessIrreflexive(a: string)
    ensures !Less(a, a)
    decreases |a|
  {
    if a != [] {
      LessIrreflexive(a[1..]);
    }
  }

  lemma {:induction false} LessAsymmetric(a: string, b: string)
    requires Less(a, b)
    ensures !Less(b, a)
    decreases |a|
  {
    if a != [] && a[0] == b[0] {
      LessAsymmetric(a[1..], b[1..]);
    }
  }

  lemma {:induction false} LessTransitive(a: string, b: string, c: string)
    requires Less(a, b) && Less(b, c)
    ensures Less(a, c)
    decreases |a|
  {
    if a != [] && a[0] == b[0] && b[0] == c[0] {
      LessTransitive(a[1..], b[1..], c[1..]);
    }
  }

  lemma {:induction false} LessTotal(a: string, b: string)
    requires a != b
    ensures Less(a, b) || Less(b, a)
    decreases |a|
  {
    if a != [] && b != [] && a[0] == b[0] {
      assert a == [a[0]] + a[1..] && b == [b[0]] + b[1..];
      LessTotal(a[1..], b[1..]);
    }
  }

  /** A shared prefix does not decide the order. */
  lemma {:induction false} LessCommonPrefix(p: string, a: string, b: string)
    ensures Less(p + a, p + b) <==> Less(a, b)
    decreases |p|
  {
    if p != [] {
      assert (p + a)[0] == p[0] && (p + a)[1..] == p[1..] + a;
      assert (p + b)[0] == p[0] && (p + b)[1..] == p[1..] + b;
      LessCommonPrefix(p[1..], a, b);
    } else {
      assert p + a == a && p + b == b;
    }
  }

  /** Between strings of equal length the order is settled before either ends. */
  lemma {:induction false} LessThenAnything(x: string, y: string, r: string, s: string)
    requires |x| == |y| && Less(x, y)
    ensures Less(x + r, y + s)
    decreases |x|
  {
    assert (x + r)[0] == x[0] && (y + s)[0] == y[0];
    if x[0] == y[0] {
      assert (x + r)[1..] == x[1..] + r && (y + s)[1..] == y[1..] + s;
      LessThenAnything(x[1..], y[1..], r, s);
    }
  }

  /** A smaller leading digit outweighs whatever follows it. */
  lemma LeadingDigitDecides(da: nat, db: nat, va: nat, vb: nat, p: nat)
    requires da < db && va < p
    ensures da * p + va < db * p + vb
  {
    MulMono(da + 1, db, p);
    assert (da + 1) * p == da * p + p;
  }

  /** For numerals of the same length, zero padded like the score field, the key order
      is the numeric order. */
  lemma {:induction false} LessIsNumericOrder(a: string, b: string)
    requires AllDigits(a) && AllDigits(b) && |a| == |b|
    ensures Less(a, b) <==> Value(a) < Value(b)
    decreases |a|
  {
    if a != [] {
      var da, db, p := DigitValue(a[0]), DigitValue(b[0]), Pow10(|a| - 1);
      var va, vb := Value(a[1..]), Value(b[1..]);
      assert Value(a) == da * p + va;
      assert Value(b) == db * p + vb;
      assert Less(a, b) <==> a[0] < b[0] || (a[0] == b[0] && Less(a[1..], b[1..]));
      ValueBound(a[1..]);
      ValueBound(b[1..]);
      if da < db {
        LeadingDigitDecides(da, db, va, vb, p);
      } else if db < da {
        LeadingDigitDecides(db, da, vb, va, p);
      } else {
        LessIsNumericOrder(a[1..], b[1..]);
      }
    }
  }

  // ---- keys ----

  lemma Assoc(a: string, b: string, c: string)
    ensures a + (b + c) == a + b + c
  {
  }

  lemma KeyShape(t: int, ts: int, u: string)
    ensures Key(t, ts, u) == ScorePrefix + (Format010(t) + (":" + Decimal(ts) + ":" + u))
    ensures Key(t, ts, u) == (ScorePrefix + Format010(t) + ":") + (Decimal(ts) + (":" + u))
  {
    var p, f, d := ScorePrefix, Format010(t), Decimal(ts);
    var tail := ":" + d + ":" + u;
    Assoc(":" + d, ":", u);
    Assoc(":", d, ":" + u);
    assert tail == ":" + (d + (":" + u));
    Assoc(f, ":", d + (":" + u));
    Assoc(p, f + ":", d + (":" + u));
    Assoc(p, f, ":");
    Assoc(p + f, ":", d + (":" + u));
    Assoc(p, f, tail);
    Assoc(p + f, ":" + d, ":" + u);
    Assoc(p + f, ":", d);
    Assoc(p + f + ":" + d, ":", u);
  }

  /** A higher total score gives a higher key, whatever the timestamps and names, as
      long as both totals are between 0 and 10^10. */
  lemma KeyOrderFollowsScore(t1: int, ts1: int, u1: string, t2: int, ts2: int, u2: string)
    requires 0 <= t1 < t2 < Pow10(10)
    ensures Less(Key(t1, ts1, u1), Key(t2, ts2, u2))
  {
    Format010Digits(t1);
    Format010Digits(t2);
    LessIsNumericOrder(Format010(t1), Format010(t2));
    LessThenAnything(Format010(t1), Format010(t2), ":" + Decimal(ts1) + ":" + u1, ":" + Decimal(ts2) + ":" + u2);
    KeyShape(t1, ts1, u1);
    KeyShape(t2, ts2, u2);
    LessCommonPrefix(ScorePrefix, Format010(t1) + (":" + Decimal(ts1) + ":" + u1), Format010(t2) + (":" + Decimal(ts2) + ":" + u2));
  }

  /** Within one total score, a later timestamp with as many digits gives a higher key —
      the opposite of the buffer, which puts the earlier timestamp first. */
  lemma KeyOrderWithinScore(t: int, ts1: int, u1: string, ts2: int, u2: string)
    requires 0 <= ts1 < ts2 && |Decimal(ts1)| == |Decimal(ts2)|
    ensures Less(Key(t, ts1, u1), Key(t, ts2, u2))
  {
    DigitsValue(ts1);
    DigitsValue(ts2);
    LessIsNumericOrder(Decimal(ts1), Decimal(ts2));
    LessThenAnything(Decimal(ts1), Decimal(ts2), ":" + u1, ":" + u2);
    KeyShape(t, ts1, u1);
    KeyShape(t, ts2, u2);
    LessCommonPrefix(ScorePrefix + Format010(t) + ":", Decimal(ts1) + (":" + u1), Decimal(ts2) + (":" + u2));
  }

  /** Read back from the keys: of two keys with totals in [0, 10^10), the lower key never
      has the higher total. */
  lemma ScoreOrderFromKeyOrder(t1: int, ts1: int, u1: string, t2: int, ts2: int, u2: string)
    requires 0 <= t1 < Pow10(10) && 0 <= t2 < Pow10(10)
    requires Less(Key(t1, ts1, u1), Key(t2, ts2, u2))
    ensures t1 <= t2
  {
    if t2 < t1 {
      KeyOrderFollowsScore(t2, ts2, u2, t1, ts1, u1);
      LessAsymmetric(Key(t1, ts1, u1), Key(t2, ts2, u2));
    }
  }

  /** Negative totals, which only 32-bit overflow produces, break the agreement: the
      padded field of -5 sorts below that of -10. */
  lemma NegativeScoresSortReversed()
    ensures Format010(-5) == "-000000005" && Format010(-10) == "-000000010"
    ensures Less(Format010(-5), Format010(-10))
  {
    NegativeFormats();
    assert "-000000005" == "-0000000" + "05" && "-000000010" == "-0000000" + "10";
    assert Less("05", "10");
    LessCommonPrefix("-0000000", "05", "10");
  }

  lemma NegativeFormats()
    ensures Format010(-5) == "-000000005" && Format010(-10) == "-000000010"
  {
    assert Digits(5) == "5";
    assert Digits(10) == "10" by {
      assert Digits(10) == Digits(1) + [DigitChar(0)];
    }
    ZerosLiteral(8);
    ZerosLiteral(7);
    assert Format010(-5) == "-" + ("00000000" + "5");
    assert Format010(-10) == "-" + ("0000000" + "10");
  }

  lemma ZerosLiteral(k: nat)
    requires k == 7 || k == 8
    ensures k == 7 ==> Zeros(k) == "0000000"
    ensures k == 8 ==> Zeros(k) == "00000000"
  {
    assert Zeros(1) == "0";
    assert Zeros(2) == "00";
    assert Zeros(3) == "000";
    assert Zeros(4) == "0000";
    assert Zeros(5) == "00000";
    assert Zeros(6) == "000000";
    assert Zeros(7) == "0000000";
  }

  // ---- keys are unambiguous ----

  predicate NoColon(s: string)
  {
    forall i :: 0 <= i < |s| ==> s[i] != ':'
  }

  lemma ColonIndex(a: string, r: string, i: nat)
    requires i <= |a|
    ensures |a + ":" + r| > i
    ensures (a + ":" + r)[i] == if i < |a| then a[i] else ':'
  {
  }

  /** Splitting at the first ':' recovers both parts. */
  lemma SplitAtColon(a: string, r: string, b: string, s: string)
    requires NoColon(a) && NoColon(b) && a + ":" + r == b + ":" + s
    ensures a == b && r == s
  {
    var x := a + ":" + r;
    if |a| < |b| {
      ColonIndex(b, s, |a|);
      assert false;
    } else if |b| < |a| {
      ColonIndex(a, r, |b|);
      assert false;
    } else {
      assert a == x[..|a|] == b;
      assert r == x[|a| + 1..] == s;
    }
  }

  lemma PadValue(s: string, width: nat)
    requires AllDigits(s)
    ensures AllDigits(Pad(s, width)) && Value(Pad(s, width)) == Value(s)
  {
    if |s| < width {
      ValueZerosThen(width - |s|, s);
    }
  }

  /** The padded field is digits, or '-' then digits; it holds no ':'. */
  lemma FormatShape(x: int)
    ensures |Format010(x)| >= 1 && NoColon(Format010(x))
    ensures x >= 0 ==> AllDigits(Format010(x)) && IsDigit(Format010(x)[0])
    ensures x < 0 ==> Format010(x)[0] == '-' && Format010(x)[1..] == Pad(Digits(-x), 9)
  {
    if x >= 0 {
      PadValue(Digits(x), 10);
    } else {
      PadValue(Digits(-x), 9);
      var f := Format010(x);
      assert f == "-" + Pad(Digits(-x), 9);
      assert f[1..] == Pad(Digits(-x), 9);
      assert forall i :: 1 <= i < |f| ==> f[i] == f[1..][i - 1];
    }
  }

  lemma DecimalShape(x: int)
    ensures |Decimal(x)| >= 1 && NoColon(Decimal(x))
    ensures x >= 0 ==> AllDigits(Decimal(x)) && IsDigit(Decimal(x)[0])
    ensures x < 0 ==> Decimal(x)[0] == '-' && Decimal(x)[1..] == Digits(-x)
  {
    if x < 0 {
      var d := Decimal(x);
      assert d == "-" + Digits(-x);
      assert d[1..] == Digits(-x);
      assert forall i :: 1 <= i < |d| ==> d[i] == d[1..][i - 1];
    }
  }

  lemma Format010Injective(x: int, y: int)
    requires Format010(x) == Format010(y)
    ensures x == y
  {
    FormatShape(x);
    FormatShape(y);
    if x >= 0 && y >= 0 {
      PadValue(Digits(x), 10);
      PadValue(Digits(y), 10);
      DigitsValue(x);
      DigitsValue(y);
    } else if x < 0 && y < 0 {
      PadValue(Digits(-x), 9);
      PadValue(Digits(-y), 9);
      DigitsValue(-x);
      DigitsValue(-y);
    } else {
      assert false;
    }
  }

  lemma DecimalInjective(x: int, y: int)
    requires Decimal(x) == Decimal(y)
    ensures x == y
  {
    DecimalShape(x);
    DecimalShape(y);
    if x >= 0 && y >= 0 {
      DigitsValue(x);
      DigitsValue(y);
    } else if x < 0 && y < 0 {
      DigitsValue(-x);
      DigitsValue(-y);
    } else {
      assert false;
    }
  }

  /** Different (total, timestamp, player) triples never share a key. */
  lemma KeyInjective(t1: int, ts1: int, u1: string, t2: int, ts2: int, u2: string)
    requires Key(t1, ts1, u1) == Key(t2, ts2, u2)
    ensures t1 == t2 && ts1 == ts2 && u1 == u2
  {
    FormatShape(t1);
    FormatShape(t2);
    DecimalShape(ts1);
    DecimalShape(ts2);
    var f1, f2 := Format010(t1), Format010(t2);
    var r1, r2 := Decimal(ts1) + ":" + u1, Decimal(ts2) + ":" + u2;
    KeyShape(t1, ts1, u1);
    KeyShape(t2, ts2, u2);
    Assoc(":", Decimal(ts1) + ":", u1);
    Assoc(":", Decimal(ts1), ":");
    Assoc(f1, ":", r1);
    Assoc(":", Decimal(ts2) + ":", u2);
    Assoc(":", Decimal(ts2), ":");
    Assoc(f2, ":", r2);
    assert ScorePrefix + (f1 + ":" + r1) == ScorePrefix + (f2 + ":" + r2);
    DropPrefix(ScorePrefix, f1 + ":" + r1, f2 + ":" + r2);
    SplitAtColon(f1, r1, f2, r2);
    Format010Injective(t1, t2);
    SplitAtColon(Decimal(ts1), u1, Decimal(ts2), u2);
    DecimalInjective(ts1, ts2);
  }

  lemma DropPrefix(p: string, a: string, b: string)
    requires p + a == p + b
    ensures a == b
  {
    assert a == (p + a)[|p|..];
    assert b == (p + b)[|p|..];
  }
}
