/** How the text of a file is made up of lines. */
module PlainLines {
  import opened Wrappers
  import opened Sequences
  import opened Streams
  import opened PlainText
  import opened PlainWrite
  import opened PlainRead

  /** Whether a text consists of complete lines. */
  predicate IsComplete(s: string) {
    s == "" || s[|s| - 1] == '\n'
  }

  /** Complete lines and what follows can be split separately. */
  lemma {:induction false} SplitComplete(a: string, b: string)
    requires IsComplete(a)
    ensures SplitLines(a + b) == SplitLines(a) + SplitLines(b)
    decreases |a|
  {
    hide SplitLines, IsComplete;
    if a == "" {
      assert a + b == b;
      SplitNothing();
    } else {
      var n := LineEnd(a);
      var line, rest := a[..n], a[n..];
      assert a == line + rest;
      FirstLine(a);
      SplitComplete(rest, b);
      SplitFirstLine(line, rest + b);
      SplitFirstLine(line, rest);
      Associative(line, rest, b);
      Associative([line], SplitLines(rest), SplitLines(b));
    }
  }

  lemma SplitNothing()
    ensures SplitLines("") == []
  {
  }

  lemma FirstLine(a: string)
    requires IsComplete(a) && a != ""
    ensures IsLine(a[..LineEnd(a)])
    ensures IsComplete(a[LineEnd(a)..])
  {
  }

  // Carriage returns

  /** Whether no line ends with a carriage return. */
  ghost predicate HasNoReturns(s: string) {
    forall i {:trigger s[i]} :: 0 < i < |s| && s[i] == '\n' ==> s[i - 1] != '\r'
  }

  lemma {:induction false} NothingToStrip(s: string)
    requires HasNoReturns(s)
    ensures StripReturns(SplitLines(s)) == SplitLines(s)
    decreases |s|
  {
    if s != "" {
      var n := LineEnd(s);
      assert forall i :: 0 <= i < |s[n..]| ==> s[n..][i] == s[n + i];
      NothingToStrip(s[n..]);
      assert StripReturn(s[..n]) == s[..n];
      assert SplitLines(s) == [s[..n]] + SplitLines(s[n..]);
      assert StripReturns(SplitLines(s))[1..] == StripReturns(SplitLines(s[n..]));
    }
  }

  /** Complete texts without such carriage returns can be put together. */
  ghost predicate IsClean(s: string) {
    IsComplete(s) && HasNoReturns(s)
  }

  lemma CleanSum(a: string, b: string)
    requires IsClean(a) && IsClean(b)
    ensures IsClean(a + b)
  {
    var s := a + b;
    forall i | 0 < i < |s| && s[i] == '\n'
      ensures s[i - 1] != '\r'
    {
      if i < |a| {
        assert s[i] == a[i] && s[i - 1] == a[i - 1];
      } else if i > |a| {
        assert s[i] == b[i - |a|] && s[i - 1] == b[i - |a| - 1];
      } else {
        assert s[i - 1] == a[|a| - 1];
      }
    }
  }

  lemma LineIsClean(line: string)
    requires IsLine(line) && '\r' !in line
    ensures IsClean(line)
  {
  }

  // Texts with several lines

  /** Whether the lines of a text don't end with carriage returns, counting
      the last one, which has no newline character. */
  ghost predicate TextIsClean(s: string) {
    HasNoReturns(s + "\n")
  }

  lemma {:induction false} NumberOfLines(s: string)
    ensures |SplitLines(s + "\n")| == Newlines(s) + 1
    decreases |s|
  {
    if s == "" {
      assert "" + "\n" == "\n";
      SplitFirstLine("\n", "");
      assert "\n" + "" == "\n";
    } else if s[0] == '\n' {
      assert s + "\n" == "\n" + (s[1..] + "\n");
      SplitFirstLine("\n", s[1..] + "\n");
      NumberOfLines(s[1..]);
    } else {
      NumberOfLines(s[1..]);
      LongerFirstLine(s[0], s[1..] + "\n");
      assert s + "\n" == [s[0]] + (s[1..] + "\n");
    }
  }

  lemma LongerFirstLine(c: char, s: string)
    requires c != '\n' && s != ""
    ensures |SplitLines([c] + s)| == |SplitLines(s)|
  {
    assert ([c] + s)[1..] == s;
    assert LineEnd([c] + s) == 1 + LineEnd(s);
    assert ([c] + s)[LineEnd([c] + s)..] == s[LineEnd(s)..];
  }

  /** As many lines as have been counted make up the text. */
  lemma TextReturns(s: string, rest: seq<string>)
    ensures
      var lines := SplitLines(s + "\n") + rest;
      && Least(Newlines(s) + 1, |lines|) == |SplitLines(s + "\n")|
      && TakeText(lines, Newlines(s) + 1) == s
      && lines[Least(Newlines(s) + 1, |lines|)..] == rest
  {
    var own := SplitLines(s + "\n");
    NumberOfLines(s);
    assert (own + rest)[..|own|] == own;
    ConcatRestoresText(s + "\n");
    assert (s + "\n")[..|s|] == s;
  }
}
