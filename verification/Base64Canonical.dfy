/** When exactly the round trip works, and that there is only one way to
    represent some data. */
module Base64Canonical {
  import opened Wrappers
  import opened Streams
  import opened Sequences
  import opened Base64
  import opened Base64Decoding
  import opened Base64RoundTrip

  lemma {:induction false} EncodingSplits(a: seq<Byte>, b: seq<Byte>)
    requires |a| % 3 == 0
    ensures EncodeAll(a + b) == EncodeAll(a) + EncodeAll(b)
    decreases |a|
  {
    if a == [] {
      assert a + b == b;
    } else {
      hide Quad, EncodeAll;
      EncodingOfGroup(a);
      EncodingSplits(a[3..], b);
      EncodingOfSum(a, b);
      Associative(Quad(a[0], a[1], a[2]), EncodeAll(a[3..]), EncodeAll(b));
    }
  }

  lemma EncodingOfSum(a: seq<Byte>, b: seq<Byte>)
    requires |a| >= 3
    ensures EncodeAll(a + b) == Quad(a[0], a[1], a[2]) + EncodeAll(a[3..] + b)
  {
    hide Quad, EncodeAll;
    EncodingOfGroup(a + b);
    assert (a + b)[3..] == a[3..] + b;
  }

  lemma {:induction false} EncodingLength(src: seq<Byte>)
    ensures |EncodeAll(src)| == (|src| + 2) / 3 * 4
    decreases |src|
  {
    if |src| >= 3 {
      EncodingLength(src[3..]);
    }
  }

  // A delimiter which occurs in the data

  /** Whether some data has been read without anything left over. */
  ghost predicate HasRead(t: Step, data: seq<Byte>) {
    t.Next? && t.reading.dst == data && t.reading.state == 0 && t.reading.pad == 0
  }

  /** Reading whole groups of three bytes keeps the byte boundary. */
  lemma {:induction false} ReadWholeGroups(r: Reading, src: seq<Byte>)
    requires IsConsistent(r) && r.state == 0 && r.pad == 0 && |src| % 3 == 0
    ensures HasRead(ReadChars(r, EncodeAll(src)), r.dst + src)
    decreases |src|
  {
    hide ReadChars, Quad, EncodeAll, AfterGroup, HasRead, IsConsistent;
    if src == [] {
      ReadNoGroup(r);
      assert r.dst + src == r.dst;
    } else {
      ReadFirstGroup(r, src);
      ReadWholeGroups(AfterGroup(r, src), src[3..]);
      assert src == src[..3] + src[3..];
      Associative(r.dst, src[..3], src[3..]);
    }
  }

  lemma ReadNoGroup(r: Reading)
    requires IsConsistent(r) && r.state == 0 && r.pad == 0
    ensures HasRead(ReadChars(r, EncodeAll([])), r.dst)
  {
  }

  function AfterGroup(r: Reading, src: seq<Byte>): (s: Reading)
    requires |src| >= 3
    ensures IsConsistent(s) && s.dst == r.dst + src[..3] && s.state == 0 && s.pad == 0
  {
    Reading(r.dst + src[..3], 0, (src[2] / 64) * 64, 0)
  }

  lemma ReadFirstGroup(r: Reading, src: seq<Byte>)
    requires IsConsistent(r) && r.state == 0 && r.pad == 0 && |src| >= 3
    ensures ReadChars(r, EncodeAll(src)) == ReadChars(AfterGroup(r, src), EncodeAll(src[3..]))
  {
    hide ReadChars, Quad, EncodeAll;
    EncodingOfGroup(src);
    assert src[..3] == [src[0], src[1], src[2]];
    ReadQuad(r, src[0], src[1], src[2], EncodeAll(src[3..]));
  }

  /** A full line contains whole groups, and more data follows. */
  lemma FullLine(src: seq<Byte>, g: nat)
    requires g > 0 && |EncodeAll(src)| > 4 * g
    ensures 3 * g < |src| && |src[..3 * g]| % 3 == 0
    ensures EncodeAll(src)[..4 * g] == EncodeAll(src[..3 * g])
    ensures EncodeAll(src)[4 * g..] == EncodeAll(src[3 * g..])
  {
    hide EncodeAll;
    EncodingLength(src);
    GroupsAndQuads(g, |src|);
    var m := 3 * g;
    EncodingLength(src[..m]);
    assert src == src[..m] + src[m..];
    EncodingSplits(src[..m], src[m..]);
  }

  lemma GroupsAndQuads(g: nat, length: nat)
    ensures (length + 2) / 3 * 4 > 4 * g ==> 3 * g < length
    ensures (3 * g + 2) / 3 * 4 == 4 * g && (3 * g) % 3 == 0
  {
  }

  /** If some line of data equals the delimiter, reading stops there, and the
      data which follows is lost. */
  lemma {:induction false} StopsTooEarly(r: Reading, src: seq<Byte>, columns: Option<nat>, delim: string, rest: seq<string>)
    requires IsLineLength(columns) && IsConsistent(r) && r.state == 0 && r.pad == 0
    requires delim in Wrap(EncodeAll(src), columns)
    ensures
      var o := ReadLines(r, Terminate(Wrap(EncodeAll(src), columns)) + rest, Some(delim)).outcome;
      o.Decoded? && |o.data| < |r.dst| + |src|
    decreases |src|
  {
    hide EncodeAll, ReadChars;
    var lines := Wrap(EncodeAll(src), columns);
    var all := Terminate(lines) + rest;
    assert src != [] && all[0] == lines[0] + "\n";
    SameLine(lines[0], delim);
    if lines[0] == delim {
      assert ReadLines(r, all, Some(delim)).outcome == Decoded(r.dst);
    } else {
      var g := columns.value / 4;
      var n := 4 * g;
      assert columns.value == n && |EncodeAll(src)| > n;
      FullLine(src, g);
      WrapNext(EncodeAll(src), n);
      assert delim in lines[1..];
      TerminateNext(lines, rest);
      ReadTerminated(r, src[..3 * g]);
      var t := ReadChars(r, all[0]);
      assert ReadLines(r, all, Some(delim)) == ReadLines(t.reading, all[1..], Some(delim));
      StopsTooEarly(t.reading, src[3 * g..], columns, delim, rest);
    }
  }

  lemma TerminateNext(lines: seq<string>, rest: seq<string>)
    requires lines != []
    ensures (Terminate(lines) + rest)[1..] == Terminate(lines[1..]) + rest
  {
  }

  lemma SameLine(line: string, delim: string)
    ensures line + "\n" == delim + "\n" <==> line == delim
  {
    if line + "\n" == delim + "\n" {
      assert (line + "\n")[..|line|] == (delim + "\n")[..|delim|];
    }
  }

  lemma WrapNext(s: string, n: nat)
    requires 0 < n < |s|
    ensures Wrap(s, Some(n)) == [s[..n]] + Wrap(s[n..], Some(n))
  {
  }

  lemma ReadTerminated(r: Reading, src: seq<Byte>)
    requires IsConsistent(r) && r.state == 0 && r.pad == 0 && |src| % 3 == 0
    ensures HasRead(ReadChars(r, EncodeAll(src) + "\n"), r.dst + src)
  {
    ReadWholeGroups(r, src);
    ReadCharsSplits(r, EncodeAll(src), "\n");
  }

  /** The exact condition for the round trip if each line which has been written
      is read as a line. */
  lemma LinesReturnExactlyIf(src: seq<Byte>, columns: Option<nat>, delim: string, rest: seq<string>)
    requires IsLineLength(columns)
    ensures Decoding(EncodedLines(src, columns, Some(delim)) + rest, Some(delim)) == Result(Decoded(src), rest) <==>
      delim !in Wrap(EncodeAll(src), columns)
  {
    if delim in Wrap(EncodeAll(src), columns) {
      var lines := Terminate(Wrap(EncodeAll(src), columns));
      StopsTooEarly(START, src, columns, delim, [delim + "\n"] + rest);
      assert EncodedLines(src, columns, Some(delim)) + rest == lines + ([delim + "\n"] + rest);
    } else {
      LinesReturn(src, columns, Some(delim), rest);
    }
  }

  /** If no line equals the delimiter, the end of the file is hit. */
  lemma {:induction false} DelimiterIsMissed(r: Reading, lines: seq<string>, delim: string)
    requires IsConsistent(r) && delim + "\n" !in lines
    ensures !ReadLines(r, lines, Some(delim)).outcome.Decoded?
    decreases |lines|
  {
    hide ReadChars;
    if lines != [] {
      assert lines[0] in lines && forall l :: l in lines[1..] ==> l in lines;
      var t := ReadChars(r, lines[0]);
      if t.Next? {
        DelimiterIsMissed(t.reading, lines[1..], delim);
      }
    }
  }

  /** A delimiter with a newline character isn't found in any file. */
  lemma NewlineIsMissed(text: string, delim: string)
    requires '\n' in delim
    ensures !Decoding(SplitLines(text), Some(delim)).outcome.Decoded?
  {
    hide ReadLines, SplitLines;
    NewlinesEndLines(text);
    var k :| 0 <= k < |delim| && delim[k] == '\n';
    var l := delim + "\n";
    assert l[k] == '\n' && k < |l| - 1;
    DelimiterIsMissed(START, SplitLines(text), delim);
  }

  /** The exact condition for the round trip: whatever follows in the file, the
      delimiter fits on a line, and no line of data equals it. */
  lemma RoundTripExactlyIf(src: seq<Byte>, columns: Option<nat>, delim: string, tail: string)
    requires IsLineLength(columns)
    ensures (Decoding(SplitLines(Concat(EncodedLines(src, columns, Some(delim))) + tail), Some(delim))
               == Result(Decoded(src), SplitLines(tail)))
       <==> '\n' !in delim && delim !in Wrap(EncodeAll(src), columns)
  {
    hide EncodedLines, Decoding, Wrap, SplitLines, Concat, IsLine;
    var lines := EncodedLines(src, columns, Some(delim));
    if '\n' in delim {
      NewlineIsMissed(Concat(lines) + tail, delim);
    } else {
      WrittenIsRead(src, columns, Some(delim));
      SplitAfterLines(lines, tail);
      LinesReturnExactlyIf(src, columns, delim, SplitLines(tail));
    }
  }

  /** A delimiter which consists of a newline character: the end of the file is
      hit although no data equals the delimiter. */
  lemma NewlineAsDelimiter()
    ensures Wrap(EncodeAll([]), None) == []
    ensures Decoding(SplitLines(Concat(EncodedLines([], None, Some("\n")))), Some("\n")) == Result(DecodingError, [])
  {
    hide ReadLines, EncodedLines;
    var text := "\n\n";
    UnbrokenLines([], "\n");
    assert text == "\n" + "\n" && "\n" == "\n" + "";
    assert [text][1..] == [] && text + "" == text;
    assert Concat(EncodedLines([], None, Some("\n"))) == text;
    SplitFirstLine("\n", "\n");
    SplitFirstLine("\n", "");
    assert SplitLines(text) == ["\n", "\n"];
    NewlineIsSkipped(["\n", "\n"]);
    NewlineIsSkipped(["\n"]);
    assert ["\n", "\n"][1..] == ["\n"] && ["\n"][1..] == [];
    EndIsHit();
  }

  lemma EndIsHit()
    ensures ReadLines(START, [], Some("\n")) == Result(DecodingError, [])
  {
  }

  lemma NewlineIsSkipped(lines: seq<string>)
    requires lines != [] && lines[0] == "\n"
    ensures ReadLines(START, lines, Some("\n")) == ReadLines(START, lines[1..], Some("\n"))
  {
    assert ReadChars(START, "\n") == Next(START);
  }

  /** Three zero bytes are written as AAAA; if this is the delimiter as well,
      nothing is read. */
  lemma DataAsDelimiter()
    ensures
      var text := Concat(EncodedLines([0, 0, 0], None, Some("AAAA")));
      text == "AAAA\nAAAA\n" && Decoding(SplitLines(text), Some("AAAA")) == Result(Decoded([]), ["AAAA\n"])
  {
    hide EncodedLines, EncodeAll, SplitLines;
    var line := "AAAA\n";
    ZerosAreEncoded();
    UnbrokenLines([0, 0, 0], "AAAA");
    assert "AAAA" + "\n" == line;
    assert [line, line][1..] == [line] && [line][1..] == [];
    assert Concat([line]) == line + "" && Concat([line, line]) == line + line;
    SplitRestoresLines([line, line]);
  }

  lemma UnbrokenLines(src: seq<Byte>, delim: string)
    ensures EncodedLines(src, None, Some(delim)) ==
      if src == [] then [delim + "\n"] else [EncodeAll(src) + "\n", delim + "\n"]
  {
    hide EncodeAll;
    assert Wrap(EncodeAll(src), None) == if src == [] then [] else [EncodeAll(src)];
  }

  lemma ZerosAreEncoded()
    ensures EncodeAll([0, 0, 0]) == "AAAA"
  {
    assert Digit(0) == 'A';
  }

  // Canonical form

  /** The characters which must have been read to get here. */
  ghost function Spelling(r: Reading): string
    requires IsConsistent(r)
  {
    var n := |r.dst|;
    if r.state == 0 then EncodeAll(r.dst)
    else if r.state == 1 then EncodeAll(r.dst[..n - 1]) + [Digit(r.dst[n - 1] / 4)]
    else if r.state == 2 then
      var b := r.dst[n - 1];
      EncodeAll(r.dst[..n - 1]) + [Digit(b / 4), Digit((b % 4) * 16 + r.res / 16)]
    else
      var b0, b1 := r.dst[n - 2], r.dst[n - 1];
      EncodeAll(r.dst[..n - 2]) +
        [Digit(b0 / 4), Digit((b0 % 4) * 16 + b1 / 16), Digit((b1 % 16) * 4 + r.res / 64)]
  }

  ghost predicate IsAligned(r: Reading) {
    |r.dst| % 3 == if r.state == 3 then 2 else if r.state == 0 then 0 else 1
  }

  lemma SecondParts(b: nat, v: nat)
    requires b % 4 == 0 && v < 64
    ensures (b + v / 16) / 4 == b / 4 && (b + v / 16) % 4 == v / 16
    ensures (v / 16) * 16 + ((v % 16) * 16) / 16 == v
  {
  }

  lemma ThirdParts(res: nat, v: nat)
    requires res % 16 == 0 && v < 64
    ensures (res + v / 4) / 16 == res / 16 && (res + v / 4) % 16 == v / 4
    ensures (v / 4) * 4 + ((v % 4) * 64) / 64 == v
  {
  }

  lemma FourthParts(res: nat, v: nat)
    requires res % 64 == 0 && v < 64
    ensures (res + v) / 64 == res / 64 && (res + v) % 64 == v
  {
  }

  /** Each base64 character which is read adds itself to the spelling. */
  lemma SpellingGrows(r: Reading, v: nat)
    requires IsConsistent(r) && IsAligned(r) && v < 64
    ensures IsAligned(Shift(r, v))
    ensures Spelling(Shift(r, v)) == Spelling(r) + [Digit(v)]
  {
    hide EncodeAll, Digit, Join, Spelling;
    if r.state == 0 {
      SpellFirst(r, v);
    } else if r.state == 1 {
      SpellSecond(r, v);
    } else if r.state == 2 {
      SpellThird(r, v);
    } else {
      SpellFourth(r, v);
    }
  }

  lemma SpellFirst(r: Reading, v: nat)
    requires IsConsistent(r) && r.state == 0 && v < 64
    ensures Spelling(Shift(r, v)) == Spelling(r) + [Digit(v)]
  {
    hide EncodeAll, Digit;
    assert Shift(r, v).dst[..|r.dst|] == r.dst;
    assert v * 4 / 4 == v;
  }

  lemma SpellSecond(r: Reading, v: nat)
    requires IsConsistent(r) && r.state == 1 && v < 64
    ensures Spelling(Shift(r, v)) == Spelling(r) + [Digit(v)]
  {
    hide EncodeAll, Digit, Join;
    var n := |r.dst|;
    assert Shift(r, v).dst[..n - 1] == r.dst[..n - 1];
    SecondParts(r.dst[n - 1], v);
  }

  lemma SpellThird(r: Reading, v: nat)
    requires IsConsistent(r) && r.state == 2 && v < 64
    ensures Spelling(Shift(r, v)) == Spelling(r) + [Digit(v)]
  {
    hide EncodeAll, Digit, Join;
    var n := |r.dst|;
    assert Shift(r, v).dst[..n - 1] == r.dst[..n - 1];
    ThirdParts(r.res, v);
  }

  lemma SpellFourth(r: Reading, v: nat)
    requires IsConsistent(r) && r.state == 3 && |r.dst| % 3 == 2 && v < 64
    ensures Spelling(Shift(r, v)) == Spelling(r) + [Digit(v)]
  {
    hide EncodeAll, Digit, Join;
    var n := |r.dst|;
    var d, b := r.dst[..n - 2], Join(r.res, v);
    FourthParts(r.res, v);
    SpellGroup(d, r.dst[n - 2], r.dst[n - 1], b);
    assert Shift(r, v).dst == d + [r.dst[n - 2], r.dst[n - 1], b];
  }

  lemma SpellGroup(d: seq<Byte>, b0: Byte, b1: Byte, b2: Byte)
    requires |d| % 3 == 0
    ensures EncodeAll(d + [b0, b1, b2]) ==
      EncodeAll(d) + [Digit(b0 / 4), Digit((b0 % 4) * 16 + b1 / 16), Digit((b1 % 16) * 4 + b2 / 64)] + [Digit(b2 % 64)]
  {
    hide Digit, EncodeAll;
    var q := Quad(b0, b1, b2);
    EncodeGroup(b0, b1, b2);
    EncodingSplits(d, [b0, b1, b2]);
    assert q == q[..3] + q[3..];
    Associative(EncodeAll(d), q[..3], q[3..]);
  }

  lemma EncodeGroup(b0: Byte, b1: Byte, b2: Byte)
    ensures EncodeAll([b0, b1, b2]) == Quad(b0, b1, b2)
  {
    hide Quad;
    EncodingOfGroup([b0, b1, b2]);
    assert [b0, b1, b2][3..] == [] && EncodeAll([]) == "";
    assert Quad(b0, b1, b2) + "" == Quad(b0, b1, b2);
  }

  /** Reading keeps track of everything which isn't ignored. */
  lemma {:induction false} ReadingIsSpelled(r: Reading, s: string)
    requires IsConsistent(r) && IsAligned(r) && ReadChars(r, s).Next?
    ensures
      var t := ReadChars(r, s).reading;
      && IsAligned(t) && t.pad >= r.pad
      && Spelling(t) + Pads(t.pad) == Spelling(r) + Pads(r.pad) + Filter(s)
    decreases |s|
  {
    if s == "" {
      assert Spelling(r) + Pads(r.pad) + "" == Spelling(r) + Pads(r.pad);
    } else {
      var t := ReadChar(r, s[0]).reading;
      CharIsSpelled(r, s[0]);
      hide Spelling, ReadChar, Pads, IsAligned;
      ReadingIsSpelled(t, s[1..]);
      var c := Filter([s[0]]);
      FilterSplits([s[0]], s[1..]);
      assert s == [s[0]] + s[1..];
      Associative(Spelling(r) + Pads(r.pad), c, Filter(s[1..]));
    }
  }

  function Pads(n: nat): string {
    seq(n, i => PAD)
  }

  lemma CharIsSpelled(r: Reading, c: char)
    requires IsConsistent(r) && IsAligned(r) && ReadChar(r, c).Next?
    ensures
      var t := ReadChar(r, c).reading;
      && IsAligned(t) && t.pad >= r.pad
      && Spelling(t) + Pads(t.pad) == Spelling(r) + Pads(r.pad) + Filter([c])
  {
    var t := ReadChar(r, c).reading;
    hide Shift, Spelling;
    if c == PAD {
      assert Pads(r.pad + 1) == Pads(r.pad) + [PAD];
      assert Filter([c]) == [PAD] + "";
      Associative(Spelling(r), Pads(r.pad), [PAD]);
      SpellingIgnoresPad(r);
    } else if Rank(c) == NO_RANK {
      assert Filter([c]) == "";
    } else {
      SpellingGrows(r, Rank(c));
      DigitOfRank(c);
      ShiftKeepsPad(r, Rank(c));
      assert Filter([c]) == [c] + "";
      assert Pads(0) == "";
    }
  }

  lemma SpellingIgnoresPad(r: Reading)
    requires IsConsistent(r)
    ensures Spelling(r.(pad := r.pad + 1)) == Spelling(r)
  {
  }

  /** Decoding only accepts the encoding of its result, apart from characters
      which are ignored. */
  lemma DecodingIsCanonical(lines: seq<string>)
    requires Decoding(lines, None).outcome.Decoded?
    ensures Filter(Concat(lines)) == EncodeAll(Decoding(lines, None).outcome.data)
  {
    LinesDontMatter(START, lines);
    var t := ReadChars(START, Concat(lines)).reading;
    ReadingIsSpelled(START, Concat(lines));
    FinishIsCanonical(t);
    var f := Filter(Concat(lines));
    assert Spelling(START) + Pads(0) + f == f;
  }

  lemma FinishIsCanonical(r: Reading)
    requires IsConsistent(r) && IsAligned(r) && Finish(r).Decoded?
    ensures Spelling(r) + Pads(r.pad) == EncodeAll(r.dst)
  {
    hide EncodeAll, Digit, Pads;
    var n := |r.dst|;
    if r.state == 2 {
      FinishOneByte(r);
    } else if r.state == 3 {
      FinishTwoBytes(r);
    } else {
      NoPads(EncodeAll(r.dst));
    }
  }

  lemma NoPads(s: string)
    ensures s + Pads(0) == s
  {
  }

  lemma FinishOneByte(r: Reading)
    requires IsConsistent(r) && r.state == 2 && r.pad == 2 && r.res == 0 && |r.dst| % 3 == 1
    ensures Spelling(r) + Pads(2) == EncodeAll(r.dst)
  {
    hide EncodeAll, Digit, Pads;
    var n := |r.dst|;
    var d, b := r.dst[..n - 1], r.dst[n - 1];
    EncodeOneByte(b);
    EncodingSplits(d, [b]);
    assert r.dst == d + [b];
    Associative(EncodeAll(d), EncodeAll([b])[..2], Pads(2));
  }

  lemma EncodeOneByte(b: Byte)
    ensures
      var c := EncodeAll([b]);
      c[..2] == [Digit(b / 4), Digit((b % 4) * 16 + 0)] && c == c[..2] + Pads(2)
  {
  }

  lemma FinishTwoBytes(r: Reading)
    requires IsConsistent(r) && r.state == 3 && r.pad == 1 && r.res == 0 && |r.dst| % 3 == 2
    ensures Spelling(r) + Pads(1) == EncodeAll(r.dst)
  {
    var n := |r.dst|;
    var d, b0, b1 := r.dst[..n - 2], r.dst[n - 2], r.dst[n - 1];
    var c := EncodeAll([b0, b1]);
    assert c == [Digit(b0 / 4), Digit((b0 % 4) * 16 + b1 / 16), Digit((b1 % 16) * 4 + 0), PAD];
    hide EncodeAll, Digit;
    EncodingSplits(d, [b0, b1]);
    assert r.dst == d + [b0, b1];
    assert c == c[..3] + Pads(1);
    Associative(EncodeAll(d), c[..3], Pads(1));
  }

  /** No two texts decode to the same data unless they only differ in
      characters which are ignored. */
  lemma DecodingIsInjective(a: seq<string>, b: seq<string>)
    requires Decoding(a, None).outcome.Decoded? && Decoding(b, None).outcome == Decoding(a, None).outcome
    ensures Filter(Concat(a)) == Filter(Concat(b))
  {
    DecodingIsCanonical(a);
    DecodingIsCanonical(b);
  }

  /** The result only depends on the characters which aren't ignored. */
  lemma DecodingDependsOnFiltered(a: seq<string>, b: seq<string>)
    requires IsLatin(Concat(a)) && IsLatin(Concat(b))
    requires Filter(Concat(a)) == Filter(Concat(b))
    ensures Decoding(a, None).outcome == Decoding(b, None).outcome
  {
    LinesDontMatter(START, a);
    LinesDontMatter(START, b);
    OnlyFilteredMatters(START, Concat(a));
    OnlyFilteredMatters(START, Concat(b));
  }
}
