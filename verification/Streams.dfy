/** Files: written to as a string, read from line by line. */
module Streams {
  import opened Wrappers
  import opened Sequences

  class Output {
    var text: string

    constructor ()
      ensures text == ""
    {
      text := "";
    }

    method Write(s: string)
      modifies this
      ensures text == old(text) + s
    {
      text := text + s;
    }
  }

  class Input {
    var lines: seq<string>

    constructor (text: string)
      ensures lines == SplitLines(text)
    {
      lines := SplitLines(text);
    }

    /** The next line, including its newline character; None at the end of
        the file. */
    method Next() returns (line: Option<string>)
      modifies this
      ensures if old(lines) == [] then line == None && lines == []
        else line == Some(old(lines)[0]) && lines == old(lines)[1..]
    {
      if lines == [] {
        return None;
      }
      line := Some(lines[0]);
      lines := lines[1..];
    }
  }

  /** Where the first line of a text ends. */
  function LineEnd(s: string): (n: nat)
    ensures n <= |s| && (s != "" ==> n > 0)
    ensures forall i :: 0 <= i < n - 1 ==> s[i] != '\n'
    ensures n < |s| ==> s[n - 1] == '\n'
  {
    if s == "" then 0
    else if s[0] == '\n' then 1
    else 1 + LineEnd(s[1..])
  }

  /** The lines of a text, each with its newline character; only the last one
      may lack it. */
  function SplitLines(s: string): seq<string>
    decreases |s|
  {
    if s == "" then []
    else [s[..LineEnd(s)]] + SplitLines(s[LineEnd(s)..])
  }

  /** A string which is exactly one line. */
  ghost predicate IsLine(s: string) {
    s != "" && s[|s| - 1] == '\n' && forall i :: 0 <= i < |s| - 1 ==> s[i] != '\n'
  }

  lemma {:induction false} LineEndOfLine(line: string, rest: string)
    requires IsLine(line)
    ensures LineEnd(line + rest) == |line|
  {
    var s := line + rest;
    assert s[0] == line[0];
    if |line| > 1 {
      assert s[1..] == line[1..] + rest;
      assert forall i :: 0 <= i < |line[1..]| ==> line[1..][i] == line[i + 1];
      LineEndOfLine(line[1..], rest);
    }
  }

  lemma SplitFirstLine(line: string, rest: string)
    requires IsLine(line)
    ensures SplitLines(line + rest) == [line] + SplitLines(rest)
  {
    LineEndOfLine(line, rest);
    assert (line + rest)[..|line|] == line;
    assert (line + rest)[|line|..] == rest;
  }

  /** The text consisting of some lines. */
  function Concat(lines: seq<string>): string {
    if lines == [] then "" else lines[0] + Concat(lines[1..])
  }

  lemma {:induction false} ConcatSplits(a: seq<string>, b: seq<string>)
    ensures Concat(a + b) == Concat(a) + Concat(b)
  {
    if a == [] {
      assert a + b == b;
    } else {
      ConcatSplits(a[1..], b);
      assert (a + b)[1..] == a[1..] + b;
      assert Concat(a) + Concat(b) == a[0] + (Concat(a[1..]) + Concat(b));
    }
  }

  /** Splitting a text restores the lines it has been made of. */
  lemma {:induction false} SplitRestoresLines(lines: seq<string>)
    requires forall l :: l in lines ==> IsLine(l)
    ensures SplitLines(Concat(lines)) == lines
  {
    if lines != [] {
      assert forall l :: l in lines[1..] ==> l in lines;
      SplitRestoresLines(lines[1..]);
      SplitFirstLine(lines[0], Concat(lines[1..]));
      assert lines == [lines[0]] + lines[1..];
    }
  }

  /** The same if something follows. */
  lemma {:induction false} SplitAfterLines(lines: seq<string>, rest: string)
    requires forall l :: l in lines ==> IsLine(l)
    ensures SplitLines(Concat(lines) + rest) == lines + SplitLines(rest)
  {
    hide SplitLines, IsLine;
    if lines == [] {
      assert "" + rest == rest;
      assert [] + SplitLines(rest) == SplitLines(rest);
    } else {
      assert lines[0] in lines && forall l :: l in lines[1..] ==> l in lines;
      SplitAfterLines(lines[1..], rest);
      var tail := Concat(lines[1..]);
      Associative(lines[0], tail, rest);
      SplitFirstLine(lines[0], tail + rest);
      assert lines == [lines[0]] + lines[1..];
      Associative([lines[0]], lines[1..], SplitLines(rest));
    }
  }

  /** A line doesn't contain a newline character except at its end. */
  lemma {:induction false} NewlinesEndLines(s: string)
    ensures forall l :: l in SplitLines(s) ==> l != "" && forall i :: 0 <= i < |l| - 1 ==> l[i] != '\n'
    decreases |s|
  {
    if s != "" {
      NewlinesEndLines(s[LineEnd(s)..]);
    }
  }

  /** Putting the lines of a text together restores the text. */
  lemma {:induction false} ConcatRestoresText(s: string)
    ensures Concat(SplitLines(s)) == s
    decreases |s|
  {
    if s != "" {
      var n := LineEnd(s);
      ConcatRestoresText(s[n..]);
      ConcatSplits([s[..n]], SplitLines(s[n..]));
      assert Concat([s[..n]]) == s[..n] + "";
      assert s == s[..n] + s[n..];
    }
  }
}
