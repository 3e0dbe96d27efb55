/** Decoding what has been encoded gives the original data, and the encoding
    of some data is the only text which decodes to it. */
module Base64RoundTrip {
  import opened Wrappers
  import opened Streams
  import opened Base64
  import opened Base64Decoding

  // Reading characters

  lemma {:induction false} ReadCharsSplits(r: Reading, a: string, b: string)
    requires IsConsistent(r)
    ensures ReadChars(r, a + b) ==
      var t := ReadChars(r, a); if t.Fail? then t else ReadChars(t.reading, b)
    decreases |a|
  {
    if a == "" {
      assert a + b == b;
    } else {
      var t := ReadChar(r, a[0]);
      assert (a + b)[1..] == a[1..] + b;
      if t.Next? {
        ReadCharsSplits(t.reading, a[1..], b);
      }
    }
  }

  /** The characters which aren't ignored. */
  function Filter(s: string): string {
    if s == "" then ""
    else (if IsBase64(s[0]) || s[0] == PAD then [s[0]] else "") + Filter(s[1..])
  }

  predicate IsLatin(s: string) {
    forall c :: c in s ==> c as int < 256
  }

  lemma {:induction false} OnlyFilteredMatters(r: Reading, s: string)
    requires IsConsistent(r) && IsLatin(s)
    ensures ReadChars(r, s) == ReadChars(r, Filter(s))
    decreases |s|
  {
    hide Shift;
    if s != "" {
      assert s[0] in s && forall c :: c in s[1..] ==> c in s;
      var t := ReadChar(r, s[0]);
      if t.Next? {
        OnlyFilteredMatters(t.reading, s[1..]);
      }
      if IsBase64(s[0]) || s[0] == PAD {
        var u := [s[0]] + Filter(s[1..]);
        assert u[1..] == Filter(s[1..]);
      } else {
        assert "" + Filter(s[1..]) == Filter(s[1..]);
      }
    }
  }

  lemma {:induction false} FilterSplits(a: string, b: string)
    ensures Filter(a + b) == Filter(a) + Filter(b)
  {
    if a == "" {
      assert a + b == b;
    } else {
      FilterSplits(a[1..], b);
      assert (a + b)[1..] == a[1..] + b;
      var c := if IsBase64(a[0]) || a[0] == PAD then [a[0]] else "";
      assert c + (Filter(a[1..]) + Filter(b)) == (c + Filter(a[1..])) + Filter(b);
    }
  }

  /** Whether nothing is ignored. */
  ghost predicate IsPure(s: string) {
    forall c :: c in s ==> IsBase64(c) || c == PAD
  }

  lemma {:induction false} FilterPure(s: string)
    requires IsPure(s)
    ensures Filter(s) == s && IsLatin(s)
  {
    if s != "" {
      assert s[0] in s && forall c :: c in s[1..] ==> c in s;
      FilterPure(s[1..]);
      assert s == [s[0]] + s[1..];
    }
  }

  // Reading lines

  /** Without a delimiter, breaking the text into lines doesn't matter. */
  lemma {:induction false} LinesDontMatter(r: Reading, lines: seq<string>)
    requires IsConsistent(r)
    ensures ReadLines(r, lines, None).outcome ==
      var t := ReadChars(r, Concat(lines)); if t.Fail? then t.outcome else Finish(t.reading)
    decreases |lines|
  {
    if lines != [] {
      var t := ReadChars(r, lines[0]);
      ReadCharsSplits(r, lines[0], Concat(lines[1..]));
      if t.Next? {
        LinesDontMatter(t.reading, lines[1..]);
      }
    }
  }

  /** Reading stops at the first line which equals the delimiter. */
  lemma {:induction false} ReadToDelimiter(r: Reading, lines: seq<string>, delim: string, rest: seq<string>)
    requires IsConsistent(r) && delim + "\n" !in lines
    requires ReadChars(r, Concat(lines)).Next?
    ensures ReadLines(r, lines + [delim + "\n"] + rest, Some(delim)) ==
      Result(Finish(ReadChars(r, Concat(lines)).reading), rest)
    decreases |lines|
  {
    var all := lines + [delim + "\n"] + rest;
    if lines == [] {
      assert all == [delim + "\n"] + rest && all[1..] == rest;
    } else {
      assert all[0] == lines[0] && all[1..] == lines[1..] + [delim + "\n"] + rest;
      assert lines[0] in lines;
      ReadCharsSplits(r, lines[0], Concat(lines[1..]));
      ReadToDelimiter(ReadChars(r, lines[0]).reading, lines[1..], delim, rest);
    }
  }

  lemma {:induction false} ReadToEnd(r: Reading, lines: seq<string>)
    requires IsConsistent(r) && ReadChars(r, Concat(lines)).Next?
    ensures ReadLines(r, lines, None) == Result(Finish(ReadChars(r, Concat(lines)).reading), [])
    decreases |lines|
  {
    if lines != [] {
      ReadCharsSplits(r, lines[0], Concat(lines[1..]));
      ReadToEnd(ReadChars(r, lines[0]).reading, lines[1..]);
    }
  }

  // Encoded data

  lemma ReadDigit(r: Reading, v: nat, s: string)
    requires IsConsistent(r) && r.pad == 0 && v < 64
    ensures ReadChars(r, [Digit(v)] + s) == ReadChars(Shift(r, v), s)
  {
    RankOfDigit(v);
    hide Digit, Rank, Shift;
    assert ([Digit(v)] + s)[1..] == s;
  }

  lemma ReadPad(r: Reading, s: string)
    requires IsConsistent(r)
    ensures ReadChars(r, [PAD] + s) == ReadChars(r.(pad := r.pad + 1), s)
  {
    assert ([PAD] + s)[1..] == s;
  }

  // A byte is put together from the characters it has been split into.

  lemma FirstByteReturns(r: Reading, b: Byte, low: nat)
    requires r.state == 0 && low < 16
    ensures (b % 4) * 16 + low < 64
    ensures Shift(Shift(r, b / 4), (b % 4) * 16 + low) == Reading(r.dst + [b], 2, low * 16, r.pad)
  {
    var s := Shift(r, b / 4);
    var v := (b % 4) * 16 + low;
    assert v / 16 == b % 4 && v % 16 == low;
    assert s.dst[|r.dst|] == (b / 4) * 4;
    assert (r.dst + [(b / 4) * 4])[|r.dst| := b] == r.dst + [b];
    hide Or;
  }

  lemma Halves(b: Byte)
    ensures (b / 16) * 16 + b % 16 == b && (b / 64) * 64 + b % 64 == b
    ensures ((b / 16) * 16) % 16 == 0 && ((b / 64) * 64) % 64 == 0
    ensures (b / 16) * 16 < 256 && (b / 64) * 64 < 256
  {
  }

  lemma LowBits(high: nat, low: nat)
    requires low < 4
    ensures (high * 4 + low) / 4 == high && (high * 4 + low) % 4 == low
  {
  }

  lemma SecondByteReturns(r: Reading, b: Byte, low: nat)
    requires r.state == 2 && r.dst != [] && r.res == (b / 16) * 16 && low < 4
    ensures IsConsistent(r) && (b % 16) * 4 + low < 64
    ensures Shift(r, (b % 16) * 4 + low) == Reading(r.dst + [b], 3, low * 64, r.pad)
  {
    Halves(b);
    LowBits(b % 16, low);
    hide Join;
    assert Join(r.res, b % 16) == b;
  }

  lemma ThirdByteReturns(r: Reading, b: Byte)
    requires r.state == 3 && |r.dst| >= 2 && r.res == (b / 64) * 64
    ensures IsConsistent(r)
    ensures Shift(r, b % 64) == Reading(r.dst + [b], 0, r.res, r.pad)
  {
    Halves(b);
    hide Join;
  }

  lemma ReadQuad(r: Reading, b0: Byte, b1: Byte, b2: Byte, s: string)
    requires IsConsistent(r) && r.state == 0 && r.pad == 0
    ensures ReadChars(r, Quad(b0, b1, b2) + s) ==
      ReadChars(Reading(r.dst + [b0, b1, b2], 0, (b2 / 64) * 64, 0), s)
  {
    hide Shift, Digit, ReadChars;
    var v0, v1, v2, v3 := b0 / 4, (b0 % 4) * 16 + b1 / 16, (b1 % 16) * 4 + b2 / 64, b2 % 64;
    FirstByteReturns(r, b0, b1 / 16);
    var r2 := Reading(r.dst + [b0], 2, (b1 / 16) * 16, 0);
    SecondByteReturns(r2, b1, b2 / 64);
    var r3 := Reading(r2.dst + [b1], 3, (b2 / 64) * 64, 0);
    ThirdByteReturns(r3, b2);
    assert r3.dst + [b2] == r.dst + [b0, b1, b2];
    ReadFourDigits(r, v0, v1, v2, v3, s);
    assert Quad(b0, b1, b2) == [Digit(v0), Digit(v1), Digit(v2), Digit(v3)];
  }

  lemma ReadTwoDigits(r: Reading, v0: nat, v1: nat, s: string)
    requires IsConsistent(r) && r.pad == 0 && v0 < 64 && v1 < 64
    ensures Shift(Shift(r, v0), v1).pad == 0
    ensures ReadChars(r, [Digit(v0), Digit(v1)] + s) == ReadChars(Shift(Shift(r, v0), v1), s)
  {
    ShiftKeepsPad(r, v0);
    ShiftKeepsPad(Shift(r, v0), v1);
    hide Shift, Digit, ReadChars;
    ReadDigit(r, v0, [Digit(v1)] + s);
    ReadDigit(Shift(r, v0), v1, s);
    assert [Digit(v0), Digit(v1)] + s == [Digit(v0)] + ([Digit(v1)] + s);
  }

  lemma ReadFourDigits(r: Reading, v0: nat, v1: nat, v2: nat, v3: nat, s: string)
    requires IsConsistent(r) && r.pad == 0 && v0 < 64 && v1 < 64 && v2 < 64 && v3 < 64
    ensures ReadChars(r, [Digit(v0), Digit(v1), Digit(v2), Digit(v3)] + s) ==
      ReadChars(Shift(Shift(Shift(Shift(r, v0), v1), v2), v3), s)
  {
    hide Shift, Digit, ReadChars;
    ReadTwoDigits(r, v0, v1, [Digit(v2), Digit(v3)] + s);
    ReadTwoDigits(Shift(Shift(r, v0), v1), v2, v3, s);
    assert [Digit(v0), Digit(v1), Digit(v2), Digit(v3)] + s == [Digit(v0), Digit(v1)] + ([Digit(v2), Digit(v3)] + s);
  }

  lemma ShiftKeepsPad(r: Reading, v: nat)
    requires IsConsistent(r) && v < 64
    ensures Shift(r, v).pad == r.pad
  {
    hide Join;
  }

  lemma EncodingOfGroup(src: seq<Byte>)
    requires |src| >= 3
    ensures EncodeAll(src) == Quad(src[0], src[1], src[2]) + EncodeAll(src[3..])
  {
  }

  /** Reading the encoding of some data reads the data. */
  lemma {:induction false} ReadEncoding(r: Reading, src: seq<Byte>)
    requires IsConsistent(r) && r.state == 0 && r.pad == 0
    ensures
      var t := ReadChars(r, EncodeAll(src));
      t.Next? && Finish(t.reading) == Decoded(r.dst + src)
    decreases |src|
  {
    hide ReadChars, Quad, EncodeAll, Finish;
    if |src| < 3 {
      ReadShort(r, src);
    } else {
      var b := [src[0], src[1], src[2]];
      var rest := EncodeAll(src[3..]);
      EncodingOfGroup(src);
      ReadEncoding(Reading(r.dst + b, 0, (src[2] / 64) * 64, 0), src[3..]);
      ReadQuad(r, src[0], src[1], src[2], rest);
      assert r.dst + b + src[3..] == r.dst + src;
    }
  }

  lemma ReadShort(r: Reading, src: seq<Byte>)
    requires IsConsistent(r) && r.state == 0 && r.pad == 0 && |src| < 3
    ensures
      var t := ReadChars(r, EncodeAll(src));
      t.Next? && Finish(t.reading) == Decoded(r.dst + src)
  {
    if |src| == 0 {
      assert r.dst + src == r.dst;
    } else {
      assert src == if |src| == 1 then [src[0]] else [src[0], src[1]];
      hide ReadChars, EncodeAll;
      if |src| == 1 {
        ReadOneByte(r, src[0]);
      } else {
        ReadTwoBytes(r, src[0], src[1]);
      }
    }
  }

  lemma ReadOneByte(r: Reading, b: Byte)
    requires IsConsistent(r) && r.state == 0 && r.pad == 0
    ensures ReadChars(r, EncodeAll([b])) == Next(Reading(r.dst + [b], 2, 0, 2))
  {
    var v0, v1 := b / 4, (b % 4) * 16;
    FirstByteReturns(r, b, 0);
    assert EncodeAll([b]) == [Digit(v0), Digit(v1), PAD, PAD];
    var s := Reading(r.dst + [b], 2, 0, 0);
    hide Shift, Digit, EncodeAll;
    ReadTwoDigits(r, v0, v1, [PAD, PAD]);
    assert [Digit(v0), Digit(v1)] + [PAD, PAD] == [Digit(v0), Digit(v1), PAD, PAD];
    ReadPad(s, [PAD]);
    ReadPad(s.(pad := 1), "");
    assert [PAD] + "" == [PAD];
  }

  lemma ReadTwoBytes(r: Reading, b0: Byte, b1: Byte)
    requires IsConsistent(r) && r.state == 0 && r.pad == 0
    ensures ReadChars(r, EncodeAll([b0, b1])) == Next(Reading(r.dst + [b0, b1], 3, 0, 1))
  {
    FirstByteReturns(r, b0, b1 / 16);
    var s := Reading(r.dst + [b0], 2, (b1 / 16) * 16, 0);
    SecondByteReturns(s, b1, 0);
    assert s.dst + [b1] == r.dst + [b0, b1];
    var v0, v1, v2 := b0 / 4, (b0 % 4) * 16 + b1 / 16, (b1 % 16) * 4;
    assert EncodeAll([b0, b1]) == [Digit(v0), Digit(v1), Digit(v2), PAD];
    hide Shift, Digit, EncodeAll, ReadChars;
    ReadThreeDigits(r, v0, v1, v2, s, Reading(r.dst + [b0, b1], 3, 0, 0));
  }

  lemma ReadThreeDigits(r: Reading, v0: nat, v1: nat, v2: nat, s: Reading, t: Reading)
    requires IsConsistent(r) && r.pad == 0 && v0 < 64 && v1 < 64 && v2 < 64
    requires s == Shift(Shift(r, v0), v1) && t == Shift(s, v2)
    ensures ReadChars(r, [Digit(v0), Digit(v1), Digit(v2), PAD]) == Next(t.(pad := 1))
  {
    hide Shift, Digit, ReadChars;
    ReadTwoDigits(r, v0, v1, [Digit(v2), PAD]);
    assert [Digit(v0), Digit(v1)] + [Digit(v2), PAD] == [Digit(v0), Digit(v1), Digit(v2), PAD];
    ShiftKeepsPad(s, v2);
    ReadDigit(s, v2, [PAD]);
    assert [Digit(v2)] + [PAD] == [Digit(v2), PAD];
    ReadOnePad(t);
  }

  lemma ReadOnePad(r: Reading)
    requires IsConsistent(r)
    ensures ReadChars(r, [PAD]) == Next(r.(pad := r.pad + 1))
  {
    ReadPad(r, "");
    assert [PAD] + "" == [PAD];
  }

  // Round trip

  lemma {:induction false} EncodingIsPure(src: seq<Byte>)
    ensures IsPure(EncodeAll(src))
    decreases |src|
  {
    if |src| >= 3 {
      EncodingIsPure(src[3..]);
    }
    forall v: nat | v < 64
      ensures IsBase64(Digit(v))
    {
      RankOfDigit(v);
    }
    hide Digit;
  }

  lemma {:induction false} FilterTerminated(lines: seq<string>)
    requires IsPure(Concat(lines))
    ensures Filter(Concat(Terminate(lines))) == Concat(lines)
    ensures IsLatin(Concat(Terminate(lines)))
  {
    if lines != [] {
      var rest := Concat(lines[1..]);
      assert Concat(lines) == lines[0] + rest;
      assert forall c :: c in lines[0] ==> c in lines[0] + rest;
      assert forall c :: c in rest ==> c in lines[0] + rest;
      FilterTerminated(lines[1..]);
      assert Terminate(lines)[1..] == Terminate(lines[1..]);
      var tail := Concat(Terminate(lines[1..]));
      assert Concat(Terminate(lines)) == lines[0] + "\n" + tail;
      hide Concat, Terminate;
      FilterLine(lines[0], tail);
    }
  }

  lemma FilterLine(line: string, tail: string)
    requires IsPure(line) && IsLatin(tail)
    ensures Filter(line + "\n" + tail) == line + Filter(tail)
    ensures IsLatin(line + "\n" + tail)
  {
    FilterPure(line);
    assert Filter("\n") == "";
    hide Filter, Rank;
    FilterSplits(line + "\n", tail);
    FilterSplits(line, "\n");
    assert line + "" == line;
  }

  /** The data lines are read as if they weren't broken. */
  lemma ReadDataLines(src: seq<Byte>, columns: Option<nat>)
    requires IsLineLength(columns)
    ensures
      var t := ReadChars(START, Concat(Terminate(Wrap(EncodeAll(src), columns))));
      t.Next? && Finish(t.reading) == Decoded(src)
  {
    var lines := Wrap(EncodeAll(src), columns);
    WrapIsLossless(EncodeAll(src), columns);
    EncodingIsPure(src);
    FilterTerminated(lines);
    OnlyFilteredMatters(START, Concat(Terminate(lines)));
    ReadEncoding(START, src);
    assert START.dst + src == src;
  }

  /** Decoding gives the data which has been encoded, and continues after the
      delimiter, provided that no line of data equals the delimiter. */
  lemma LinesReturn(src: seq<Byte>, columns: Option<nat>, delim: Option<string>, rest: seq<string>)
    requires IsLineLength(columns)
    requires delim.None? ==> rest == []
    requires delim.Some? ==> delim.value !in Wrap(EncodeAll(src), columns)
    ensures Decoding(EncodedLines(src, columns, delim) + rest, delim) == Result(Decoded(src), rest)
  {
    var data := Terminate(Wrap(EncodeAll(src), columns));
    ReadDataLines(src, columns);
    if delim.Some? {
      NewlinesCancel(Wrap(EncodeAll(src), columns), delim.value);
      ReadToDelimiter(START, data, delim.value, rest);
    } else {
      assert EncodedLines(src, columns, delim) + rest == data;
      ReadToEnd(START, data);
    }
  }

  lemma NewlinesCancel(lines: seq<string>, delim: string)
    ensures delim + "\n" in Terminate(lines) <==> delim in lines
  {
    forall i | 0 <= i < |lines|
      ensures lines[i] + "\n" == delim + "\n" <==> lines[i] == delim
    {
      if lines[i] + "\n" == delim + "\n" {
        assert (lines[i] + "\n")[..|lines[i]|] == (delim + "\n")[..|delim|];
      }
    }
    if delim in lines {
      var i :| 0 <= i < |lines| && lines[i] == delim;
      assert Terminate(lines)[i] == delim + "\n";
    }
  }

  /** A delimiter which can't be mistaken for data: it has a character which
      doesn't occur in data, or no characters at all. */
  lemma SafeDelimiter(src: seq<Byte>, columns: Option<nat>, delim: string)
    requires IsLineLength(columns)
    requires !IsPure(delim) || delim == ""
    ensures delim !in Wrap(EncodeAll(src), columns)
  {
    EncodingIsPure(src);
    var lines := Wrap(EncodeAll(src), columns);
    forall i | 0 <= i < |lines|
      ensures lines[i] != delim
    {
      WrapLengths(EncodeAll(src), columns, i);
    }
  }

  /** What has been written to a file is read line by line as intended. */
  lemma WrittenIsRead(src: seq<Byte>, columns: Option<nat>, delim: Option<string>)
    requires IsLineLength(columns)
    requires delim.Some? ==> '\n' !in delim.value
    ensures SplitLines(Concat(EncodedLines(src, columns, delim))) == EncodedLines(src, columns, delim)
    ensures forall l :: l in EncodedLines(src, columns, delim) ==> IsLine(l)
  {
    var lines := Wrap(EncodeAll(src), columns);
    EncodingIsPure(src);
    forall l | l in EncodedLines(src, columns, delim)
      ensures IsLine(l)
    {
      if l in Terminate(lines) {
        var i :| 0 <= i < |lines| && l == Terminate(lines)[i];
        WrapLengths(EncodeAll(src), columns, i);
        assert forall j :: 0 <= j < |lines[i]| ==> l[j] == lines[i][j] && lines[i][j] in lines[i];
      }
    }
    SplitRestoresLines(EncodedLines(src, columns, delim));
  }

  /** Decoding a file which starts with encoded data gives the data and leaves
      what follows the delimiter, provided that the delimiter fits on a line and
      no line of data equals it. */
  lemma RoundTrip(src: seq<Byte>, columns: Option<nat>, delim: Option<string>, tail: string)
    requires IsLineLength(columns)
    requires delim.None? ==> tail == ""
    requires delim.Some? ==> '\n' !in delim.value && delim.value !in Wrap(EncodeAll(src), columns)
    ensures Decoding(SplitLines(Concat(EncodedLines(src, columns, delim)) + tail), delim)
      == Result(Decoded(src), SplitLines(tail))
  {
    hide EncodedLines, Decoding, IsLine, Wrap;
    WrittenIsRead(src, columns, delim);
    SplitAfterLines(EncodedLines(src, columns, delim), tail);
    LinesReturn(src, columns, delim, SplitLines(tail));
  }
}
