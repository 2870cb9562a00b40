/** `FileLoaderVerticle`: at start it keeps the trimmed non-blank lines of the phrase
    files as the command corpus; `get.commands` draws phrases from it at random. The
    directory listing and file reads are a parameter (the files' lines in listing order),
    and the draws of `ThreadLocalRandom.nextInt` are an oracle. */
module FileLoader {
  import opened JavaInts
  import opened Wrappers

  /** What `String.trim` strips: every char at or below the space. */
  predicate IsBlank(c: char)
  {
    c <= ' '
  }

  /** The leading part of `trim`: drops blank chars at the front. */
  function DropLeading(s: string): string
  {
    if s != [] && IsBlank(s[0]) then DropLeading(s[1..]) else s
  }

  /** The trailing part of `trim`: drops blank chars at the back. */
  function DropTrailing(s: string): string
  {
    if s != [] && IsBlank(s[|s| - 1]) then DropTrailing(s[..|s| - 1]) else s
  }

  /** Java's `String.trim`. */
  function Trim(s: string): string
  {
    DropTrailing(DropLeading(s))
  }

  /** Dropping the leading blanks leaves a suffix that starts with a non-blank, and
      everything dropped was blank. */
  lemma {:induction false} DropLeadingShape(s: string)
    ensures |DropLeading(s)| <= |s| && DropLeading(s) == s[|s| - |DropLeading(s)|..]
    ensures forall k :: 0 <= k < |s| - |DropLeading(s)| ==> IsBlank(s[k])
    ensures DropLeading(s) != [] ==> !IsBlank(DropLeading(s)[0])
    decreases |s|
  {
    if s != [] && IsBlank(s[0]) {
      var t := s[1..];
      DropLeadingShape(t);
      assert DropLeading(s) == DropLeading(t);
      forall k | 1 <= k < |s| - |DropLeading(s)|
        ensures IsBlank(s[k])
      {
        assert s[k] == t[k - 1];
      }
    }
  }

  /** Dropping the trailing blanks leaves a prefix that ends with a non-blank, and
      everything dropped was blank. */
  lemma {:induction false} DropTrailingShape(s: string)
    ensures |DropTrailing(s)| <= |s| && DropTrailing(s) == s[..|DropTrailing(s)|]
    ensures forall k :: |DropTrailing(s)| <= k < |s| ==> IsBlank(s[k])
    ensures DropTrailing(s) != [] ==> !IsBlank(DropTrailing(s)[|DropTrailing(s)| - 1])
    decreases |s|
  {
    if s != [] && IsBlank(s[|s| - 1]) {
      var t := s[..|s| - 1];
      DropTrailingShape(t);
      assert DropTrailing(s) == DropTrailing(t);
      forall k | |DropTrailing(s)| <= k < |s| - 1
        ensures IsBlank(s[k])
      {
        assert s[k] == t[k];
      }
    }
  }

  /** The trim is the middle of the line between blank ends, and it neither starts nor
      ends with a blank. */
  lemma TrimShape(s: string)
    ensures exists i, j ::
      0 <= i <= j <= |s| && Trim(s) == s[i..j] &&
      (forall k :: 0 <= k < i ==> IsBlank(s[k])) && (forall k :: j <= k < |s| ==> IsBlank(s[k]))
    ensures Trim(s) != [] ==> !IsBlank(Trim(s)[0]) && !IsBlank(Trim(s)[|Trim(s)| - 1])
  {
    var d := DropLeading(s);
    DropLeadingShape(s);
    DropTrailingShape(d);
    var t := Trim(s);
    var i := |s| - |d|;
    var j := i + |t|;
    assert t == d[..|t|];
    assert t == s[i..j];
    forall k | j <= k < |s|
      ensures IsBlank(s[k])
    {
      assert s[k] == d[k - i];
    }
    if t != [] {
      assert t[0] == d[0];
    }
  }

  /** A line is skipped exactly when it is blank throughout. */
  lemma TrimEmpty(s: string)
    ensures Trim(s) == [] <==> forall k :: 0 <= k < |s| ==> IsBlank(s[k])
  {
    TrimShape(s);
    var i, j :| 0 <= i <= j <= |s| && Trim(s) == s[i..j] &&
      (forall k :: 0 <= k < i ==> IsBlank(s[k])) && (forall k :: j <= k < |s| ==> IsBlank(s[k]));
    if Trim(s) != [] {
      assert Trim(s)[0] == s[i];
    } else {
      assert i == j;
    }
  }

  /** Trimming twice is trimming once. */
  lemma TrimIdempotent(s: string)
    ensures Trim(Trim(s)) == Trim(s)
  {
    var t := Trim(s);
    TrimShape(s);
    if t != [] {
      assert DropLeading(t) == t;
      assert DropTrailing(t) == t;
    }
  }

  /** What the inner loop adds for one line. */
  function KeptLine(line: string): seq<string>
  {
    if Trim(line) == [] then [] else [Trim(line)]
  }

  /** The commands one file contributes, in line order. */
  function Kept(lines: seq<string>): seq<string>
  {
    if lines == [] then [] else Kept(lines[..|lines| - 1]) + KeptLine(lines[|lines| - 1])
  }

  /** The corpus of the files in listing order. */
  function Corpus(files: seq<seq<string>>): seq<string>
  {
    if files == [] then [] else Corpus(files[..|files| - 1]) + Kept(files[|files| - 1])
  }

  /** Lines are kept in line order: the commands of consecutive lines are the commands of
      the first lines followed by those of the rest. */
  lemma {:induction false} KeptConcat(a: seq<string>, b: seq<string>)
    ensures Kept(a + b) == Kept(a) + Kept(b)
    decreases |b|
  {
    if b == [] {
      assert a + b == a;
    } else {
      var b' := b[..|b| - 1];
      assert (a + b)[..|a + b| - 1] == a + b' && (a + b)[|a + b| - 1] == b[|b| - 1];
      KeptConcat(a, b');
    }
  }

  /** Every command is the non-empty trim of one of the file's lines. */
  lemma {:induction false} KeptSound(lines: seq<string>)
    ensures forall m :: 0 <= m < |Kept(lines)| ==>
      Kept(lines)[m] != [] && exists l :: 0 <= l < |lines| && Kept(lines)[m] == Trim(lines[l])
    decreases |lines|
  {
    if lines != [] {
      var init := lines[..|lines| - 1];
      KeptSound(init);
      forall m | 0 <= m < |Kept(lines)|
        ensures Kept(lines)[m] != [] && exists l :: 0 <= l < |lines| && Kept(lines)[m] == Trim(lines[l])
      {
        if m < |Kept(init)| {
          var l :| 0 <= l < |init| && Kept(init)[m] == Trim(init[l]);
          assert lines[l] == init[l];
        } else {
          assert Kept(lines)[m] == Trim(lines[|lines| - 1]);
        }
      }
    }
  }

  /** Every line that is not blank throughout is kept. */
  lemma {:induction false} KeptComplete(lines: seq<string>, l: nat)
    requires l < |lines| && Trim(lines[l]) != []
    ensures Trim(lines[l]) in Kept(lines)
    decreases |lines|
  {
    var init := lines[..|lines| - 1];
    if l < |lines| - 1 {
      assert init[l] == lines[l];
      KeptComplete(init, l);
    }
  }

  /** Every command of the corpus is the non-empty trim of a line of some file. */
  lemma {:induction false} CorpusSound(files: seq<seq<string>>)
    ensures forall m :: 0 <= m < |Corpus(files)| ==>
      Corpus(files)[m] != [] && exists f, l :: 0 <= f < |files| && 0 <= l < |files[f]| && Corpus(files)[m] == Trim(files[f][l])
    decreases |files|
  {
    if files != [] {
      var init, last := files[..|files| - 1], files[|files| - 1];
      CorpusSound(init);
      KeptSound(last);
      forall m | 0 <= m < |Corpus(files)|
        ensures Corpus(files)[m] != [] &&
          exists f, l :: 0 <= f < |files| && 0 <= l < |files[f]| && Corpus(files)[m] == Trim(files[f][l])
      {
        if m < |Corpus(init)| {
          var f, l :| 0 <= f < |init| && 0 <= l < |init[f]| && Corpus(init)[m] == Trim(init[f][l]);
          assert files[f] == init[f];
        } else {
          var m' := m - |Corpus(init)|;
          assert Corpus(files)[m] == Kept(last)[m'];
          var l :| 0 <= l < |last| && Kept(last)[m'] == Trim(last[l]);
          assert files[|files| - 1][l] == last[l];
        }
      }
    }
  }

  lemma Append(a: seq<string>, b: seq<string>, c: seq<string>)
    ensures (a + b) + c == a + (b + c)
  {
  }

  class FileLoaderVerticle {
    var commands: seq<string>

    constructor ()
      ensures commands == []
    {
      commands := [];
    }

    /** The loading part of `start`: `files` is `None` when the commands directory is
        missing, otherwise the lines of each `*.txt` file in listing order. */
    method Start(files: Option<seq<seq<string>>>)
      modifies this
      ensures files.None? ==> commands == old(commands)
      ensures files.Some? ==> commands == old(commands) + Corpus(files.value)
    {
      if files.None? {
        return;
      }
      var all := files.value;
      ghost var initial := commands;
      for f := 0 to |all|
        invariant commands == initial + Corpus(all[..f])
      {
        ghost var before := Corpus(all[..f]);
        LoadFile(all[f]);
        assert all[..f + 1][..f] == all[..f] && all[..f + 1][f] == all[f];
        assert Corpus(all[..f + 1]) == before + Kept(all[f]);
        Append(initial, before, Kept(all[f]));
      }
      assert all[..|all|] == all;
    }

    /** The inner loop of `start` over the lines of one file. */
    method LoadFile(lines: seq<string>)
      modifies this
      ensures commands == old(commands) + Kept(lines)
    {
      for l := 0 to |lines|
        invariant commands == old(commands) + Kept(lines[..l])
      {
        var line := lines[l];
        if !(Trim(line) == []) {
          commands := commands + [Trim(line)];
        }
        assert lines[..l + 1][..l] == lines[..l];
      }
      assert lines[..|lines|] == lines;
    }

    /** `handleGetCommands`: `draws[i]` is the i-th `nextInt(commands.size())`. */
    method HandleGetCommands(count: Int32, draws: seq<nat>) returns (result: seq<string>)
      requires commands != [] ==> |draws| >= count && forall i :: 0 <= i < |draws| ==> draws[i] < |commands|
      ensures commands == [] ==> result == []
      ensures commands != [] ==> |result| == Max0(count)
      ensures commands != [] ==> forall i :: 0 <= i < |result| ==> result[i] == commands[draws[i]]
      ensures forall c :: c in result ==> c in commands
    {
      if commands == [] {
        return [];
      }
      result := [];
      var i := 0;
      while i < count
        invariant 0 <= i <= Max0(count) && |result| == i
        invariant forall j :: 0 <= j < i ==> result[j] == commands[draws[j]]
      {
        var index := draws[i];
        result := result + [commands[index]];
        i := i + 1;
      }
    }
  }
}
