/** What can't be read as it has been written: pixmaps without a file name,
    names of symbols which contain white space or look as if the symbol were
    embedded, and carriage returns at line ends. */
module Unwritable {
  import opened Wrappers
  import opened Sequences
  import opened ObjectData
  import opened PlainFormat
  import opened PlainText
  import opened PlainLines
  import opened Streams
  import opened Base64
  import opened Base64Decoding
  import opened Base64RoundTrip
  import opened Drawings
  import opened PlainWrite
  import opened PlainRead
  import opened PlainObjects

  // File names

  /** An embedded pixmap without a file name gets one. */
  lemma NoFileNameIsLost(p: Pixmap, rest: seq<string>, load: Loaders)
    requires p.embedded && p.filename.None?
    ensures ReadPixmap(SplitLines(PixmapText(p)) + rest, true, load)
         == Parsed(Some(p.(filename := Some("None"))), rest, 0)
  {
    hide SplitLines, ReadPixmap;
    var named := p.(filename := Some("None"));
    assert PixmapText(named) == PixmapText(p);
    assert IsLine("None" + "\n");
    PixmapIsRead(named, rest, load);
  }

  /** An embedded pixmap with an empty file name loses it. */
  lemma EmptyFileNameIsLost(p: Pixmap, rest: seq<string>, load: Loaders)
    requires p.embedded && p.filename == Some("")
    ensures ReadPixmap(SplitLines(PixmapText(p)) + rest, true, load)
         == Parsed(Some(p.(filename := None)), rest, 0)
  {
    hide EncodedLines, Concat, SplitLines, Decoding, PixmapText;
    assert IsLine("" + "\n") && "" + "\n" == "\n";
    PixmapLines(p);
    var own := SplitLines(PixmapText(p));
    assert own[0] == "\n" && WithoutNewline("\n") == "";
    assert (own + rest)[1..] == own[1..] + rest;
    assert '.' in DELIMITER && !IsBase64('.');
    SafeDelimiter(p.data, Some(COLUMNS), DELIMITER);
    LinesReturn(p.data, Some(COLUMNS), Some(DELIMITER), rest);
    assert own[1..] == EncodedLines(p.data, Some(COLUMNS), Some(DELIMITER));
  }

  // Names of symbols

  /** A symbol whose name looks as if it were embedded is read as if it were. */
  lemma PrefixIsMisread(c: Component<Symbol>, rest: seq<string>, load: Loaders)
    requires var d: Data<Symbol, Pixmap> := ComponentData(c); Storable(d)
    requires !c.symbol.embedded && IsWord(c.symbol.basename) && StartsWithEmbedded(c.symbol.basename)
    ensures
      var d: Data<Symbol, Pixmap> := ComponentData(c);
      ReadComplex(FieldLine(Fields(d, 0)), rest, load)
        == Parsed(Some(ComponentData(c.(symbol := Symbol(c.symbol.basename[8..], Missing, true)))), rest, 0)
  {
    hide Sscanf, FieldLine, IsWord, IsSpace;
    var d: Data<Symbol, Pixmap> := ComponentData(c);
    assert !IsSpace('C') by {
      CIsNoSpace();
    }
    LineReturns(Fields(d, 0), [C] + Ints(5) + [S]);
  }

  lemma {:induction false} WordsAreWords(s: string)
    ensures forall w :: w in Split(s) ==> IsWord(w)
    decreases |s|
  {
    if s != "" {
      if IsSpace(s[0]) {
        WordsAreWords(s[1..]);
      } else {
        WordsAreWords(s[WordEnd(s)..]);
        UpToWordEnd(s);
      }
    }
  }

  lemma {:induction false} UpToWordEnd(s: string)
    ensures forall c :: c in s[..WordEnd(s)] ==> !IsSpace(c)
  {
    if s != "" && !IsSpace(s[0]) {
      UpToWordEnd(s[1..]);
      assert s[..WordEnd(s)] == [s[0]] + s[1..][..WordEnd(s[1..])];
    }
  }

  ghost predicate HasWordAsName(symbol: Symbol, load: Loaders) {
    if symbol.embedded then IsWord("EMBEDDED" + symbol.basename)
    else exists name :: IsWord(name) && symbol == load.symbol(name)
  }

  /** A name with white space can't be read from any line. */
  lemma BlankCannotBeRead(line: string, rest: seq<string>, load: Loaders)
    ensures
      var p := ReadComplex(line, rest, load);
      p.Parsed? && p.data.Some? ==>
        p.data.value.ComponentData? && HasWordAsName(p.data.value.component.symbol, load)
  {
    hide IsWord, Sscanf;
    var r := Sscanf(line, [C] + Ints(5) + [S]);
    if r.Some? {
      NameIsWord(line);
      var basename := r.value[6].s;
      if StartsWithEmbedded(basename) {
        assert basename == "EMBEDDED" + basename[8..];
      }
    }
  }

  lemma {:induction false} StringsAreWords(words: seq<string>, convs: seq<Conversion>, i: nat)
    requires |words| == |convs| && i < |convs| && convs[i] == S && ParseFields(words, convs).Some?
    ensures ParseFields(words, convs).value[i] == Str(words[i])
  {
    if i > 0 {
      StringsAreWords(words[1..], convs[1..], i - 1);
    }
  }

  lemma NameIsWord(line: string)
    ensures
      var r := Sscanf(line, [C] + Ints(5) + [S]);
      r.Some? ==> r.value[6].Str? && IsWord(r.value[6].s)
  {
    hide Split, IsWord, ParseFields;
    var convs := [C] + Ints(5) + [S];
    if Sscanf(line, convs).Some? {
      var words := Split(line[..|line| - 1]);
      WordsAreWords(line[..|line| - 1]);
      StringsAreWords(words[..7], convs, 6);
      assert words[6] in words;
    }
  }

  // Carriage returns

  lemma LineIsShorter(line: string, rest: string)
    requires IsLine(line)
    ensures |StripReturn(line)| <= |line|
    ensures HasNoReturns(line) && HasNoReturns(rest) ==> HasNoReturns(line + rest)
    ensures !HasNoReturns(line) ==> |StripReturn(line)| < |line|
  {
  }

  function StrippedLength(s: string): nat {
    |Concat(StripReturns(SplitLines(s)))|
  }

  lemma FirstAndRestLength(s: string)
    requires s != ""
    ensures
      var n := LineEnd(s);
      StrippedLength(s) == |StripReturn(s[..n])| + StrippedLength(s[n..])
  {
    hide StripReturn, LineEnd;
    var n := LineEnd(s);
    var lines := SplitLines(s);
    assert lines[0] == s[..n] && lines[1..] == SplitLines(s[n..]);
    var stripped := StripReturns(lines);
    assert stripped[0] == StripReturn(s[..n]) && stripped[1..] == StripReturns(lines[1..]);
  }

  lemma LastLineIsNotStripped(s: string)
    requires s != "" && s[|s| - 1] != '\n' && LineEnd(s) == |s|
    ensures HasNoReturns(s) && StripReturn(s) == s
  {
  }

  lemma {:induction false} StripIsShorter(s: string)
    ensures StrippedLength(s) <= |s|
    ensures !HasNoReturns(s) ==> StrippedLength(s) < |s|
    decreases |s|
  {
    hide HasNoReturns, StripReturn, StrippedLength, IsLine;
    if s == "" {
      NoLine();
    } else {
      var n := LineEnd(s);
      StripIsShorter(s[n..]);
      FirstAndRestLength(s);
      FirstIsLine(s);
      assert s == s[..n] + s[n..];
      if IsLine(s[..n]) {
        LineIsShorter(s[..n], s[n..]);
      } else {
        assert s[n..] == "" && s[..n] == s;
        LastLineIsNotStripped(s);
        NoLine();
      }
    }
  }

  lemma NoLine()
    ensures HasNoReturns("") && StrippedLength("") == 0
  {
  }

  lemma FirstIsLine(s: string)
    requires s != ""
    ensures
      var n := LineEnd(s);
      IsLine(s[..n]) || (n == |s| && s[n - 1] != '\n')
  {
  }

  /** A file is read as it has been written if and only if no line ends with a
      carriage return. */
  lemma StrippedExactlyIf(s: string)
    ensures Concat(StripReturns(SplitLines(s))) == s <==> HasNoReturns(s)
  {
    if HasNoReturns(s) {
      NothingToStrip(s);
      ConcatRestoresText(s);
    }
    StripIsShorter(s);
  }
}
