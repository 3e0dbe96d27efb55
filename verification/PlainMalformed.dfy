/** Lines which can't be read at all, and what raises an exception. */
module PlainMalformed {
  import opened Wrappers
  import opened Sequences
  import opened ObjectData
  import opened PlainFormat
  import opened PlainText
  import opened PlainLines
  import opened PlainObjects
  import opened Streams
  import opened Drawings
  import opened PlainWrite
  import opened PlainRead
  import opened PlainReturn
  import opened PlainRoundTrip
  import opened PlainVersions
  import opened PlainTolerance
  import opened PlainStray
  import Base64Decoding

  // Single objects

  /** The fields in the first line of an object of a certain type. */
  function Conversions(c: char): seq<Conversion>
    requires IsObjectType(c)
  {
    if c == 'C' then [C] + Ints(5) + [S]
    else [C] + Ints(
      if c == 'N' then 5 else if c == 'U' then 6 else if c == 'P' || c == 'G' then 7 else if c == 'T' then 9
      else if c == 'L' then 10 else if c == 'A' then 11 else if c == 'H' then 13 else if c == 'V' then 15 else 16)
  }

  /** An object whose first line doesn't have these fields is one error, and no
      other lines are consumed. */
  lemma MalformedObject(c: char, line: string, rest: seq<string>, load: Loaders)
    requires IsObjectType(c) && Sscanf(line, Conversions(c)) == None
    ensures ReadObject(c, line, rest, load) == Parsed(None, rest, 1)
  {
    hide Sscanf;
  }

  /** A line with these fields is always read, unless an exception is raised. */
  lemma WellFormedObject(c: char, line: string, rest: seq<string>, load: Loaders)
    requires IsObjectType(c) && Sscanf(line, Conversions(c)).Some?
    ensures var p := ReadObject(c, line, rest, load); p.Parsed? ==> p.data.Some?
  {
    hide Sscanf, ReadPixmap, TakeText, LineOf, FillOf;
    if c == 'G' {
      AlwaysAPixmap(rest, Sscanf(line, Conversions(c)).value[7].n == 1, load);
    }
  }

  lemma AlwaysAPixmap(rest: seq<string>, embedded: bool, load: Loaders)
    ensures var p := ReadPixmap(rest, embedded, load); p.Parsed? ==> p.data.Some?
  {
    hide Base64Decoding.Decoding;
  }

  /** The file name which is read, and the lines after it. */
  function NameOf(rest: seq<string>): Option<string> {
    if rest == [] then Some("") else if rest[0] == "\n" || rest[0] == "" then None else Some(WithoutNewline(rest[0]))
  }

  function AfterName(rest: seq<string>): seq<string> {
    if rest == [] then [] else rest[1..]
  }

  /** A missing file name is one error, and so are data which can't be decoded.  An
      exception is raised for a pixmap which is loaded but embedded, and for
      characters outside of Latin-1. */
  lemma PixmapErrorsExactlyIf(rest: seq<string>, embedded: bool, load: Loaders)
    ensures
      var p, d := ReadPixmap(rest, embedded, load), Base64Decoding.Decoding(AfterName(rest), Some("."));
      && (p.Raised? <==> if embedded then d.outcome.IndexError? else load.pixmap(NameOf(rest)).embedded)
      && (p.Parsed? ==> p.data.Some?)
      && (p.Parsed? ==>
            p.errors == (if rest == [] then 1 else 0) + (if embedded && !d.outcome.Decoded? then 1 else 0))
      && (p.Parsed? && embedded ==>
            && p.data.value == Pixmap(NameOf(rest), if d.outcome.Decoded? then d.outcome.data else [], true)
            && p.rest == d.rest)
      && (p.Parsed? && !embedded ==> p.data.value == load.pixmap(NameOf(rest)) && p.rest == AfterName(rest))
  {
    hide Base64Decoding.Decoding;
    if rest != [] && rest[0] != "" {
      assert WithoutNewline(rest[0]) == "" <==> rest[0] == "\n";
    }
  }

  /** An exception is raised for a symbol which is loaded but embedded. */
  lemma SymbolRaisesExactlyIf(line: string, rest: seq<string>, load: Loaders)
    ensures
      var r := Sscanf(line, [C] + Ints(5) + [S]);
      ReadComplex(line, rest, load).Raised? <==>
        r.Some? && !("EMBEDDED" <= r.value[6].s) && load.symbol(r.value[6].s).embedded
  {
    hide Sscanf;
    var r := Sscanf(line, [C] + Ints(5) + [S]);
    if r.Some? {
      assert StartsWithEmbedded(r.value[6].s) <==> "EMBEDDED" <= r.value[6].s;
    }
  }

  // Files

  /** Whether a line starts an object or tells a version, but can't be parsed. */
  ghost predicate IsMalformed(line: string) {
    line != "" &&
    ((IsObjectType(line[0]) && Sscanf(line, Conversions(line[0])) == None)
     || (line[0] == 'v' && Sscanf(line, [C, U, U]) == None && Sscanf(line, [C, U]) == None))
  }

  lemma MalformedItem(st: State, line: string, rest: seq<string>, load: Loaders)
    requires IsGood(st) && st.format == CURRENT && IsMalformed(line)
    ensures IsGood(st.(errors := st.errors + 1))
    ensures ReadItem(st, line, rest, load) == Step(st.(errors := st.errors + 1), rest)
  {
    hide Sscanf, Conversions, ReadObject, IsGood;
    ErrorsAreGood(st, 1);
    if IsObjectType(line[0]) {
      MalformedObject(line[0], line, rest, load);
    }
  }

  /** A line which can't be parsed is one error and is skipped. */
  lemma MalformedLineIsCounted(before: seq<Obj>, line: string, after: seq<Obj>, ripper: RipperDirection, load: Loaders)
    requires AreStored(before) && AreStored(after) && AreWritable(before, load) && AreWritable(after, load)
    requires IsLine(line) && '\r' !in line && IsMalformed(line)
    ensures AreStored(before + after)
    ensures FileContents(FileText(before, ripper) + line + ObjectsText(after, after, ripper), load)
      == Finished(RereadAll(before + after), 1)
  {
    hide FileText, FileContents, ObjectsText, SplitLines, ReadItem, AreStored, AreWritable, IsMalformed, AfterFirst, IsGood,
      IsLine, IsAfter;
    StateAfterFirst(before);
    MalformedItem(AfterFirst(before), line, SplitLines(ObjectsText(after, after, ripper)), load);
    LineIsSkipped(before, line, 1, after, ripper, load);
  }

  /** An object with a value which is neither permitted nor repaired raises an
      exception. */
  lemma InvalidObjectRaises(before: seq<Obj>, line: string, after: seq<Obj>, ripper: RipperDirection, load: Loaders)
    requires AreStored(before) && AreStored(after) && AreWritable(before, load) && AreWritable(after, load)
    requires IsLine(line) && '\r' !in line && IsObjectType(line[0])
    requires
      var p := ReadObject(line[0], line, SplitLines(ObjectsText(after, after, ripper)), load);
      p.Raised? || (p.data.Some? && !HasValidStyles(p.data.value))
    ensures FileContents(FileText(before, ripper) + line + ObjectsText(after, after, ripper), load) == Exception
  {
    hide FileText, FileContents, ObjectsText, SplitLines, AreStored, AreWritable, AfterFirst, IsGood, ReadObject, ReadItems,
      IsLine, IsAfter, HasValidStyles, IsRepaired, IsObjectType;
    var lines := SplitLines(ObjectsText(after, after, ripper));
    TwoParts(before, line, after, ripper, load);
    StateAfterFirst(before);
    LineIsNonempty(line);
    ObjectIsRepaired(line[0], line, lines, load);
    var p := ReadObject(line[0], line, lines, load);
    if p.Parsed? {
      RepairedIsValidExactlyIf(p.data.value);
    }
    InvalidItem(AfterFirst(before), line, lines, load);
    ReadNextItem(AfterFirst(before), line, lines, load);
  }

  lemma InvalidItem(st: State, line: string, rest: seq<string>, load: Loaders)
    requires IsGood(st) && st.format == CURRENT && line != "" && IsObjectType(line[0])
    requires
      var p := ReadObject(line[0], line, rest, load);
      p.Raised? || (p.data.Some? && !DataIsValid(p.data.value))
    ensures ReadItem(st, line, rest, load) == Stop(Exception)
  {
    hide ReadObject, DataIsValid, IsGood;
  }

  /** Two brackets after an embedded component raise an exception, since the
      component isn't in the symbol. */
  lemma BracketsInSymbolRaise(st: State, bracket: string, rest: seq<string>, load: Loaders)
    requires IsGood(st) && st.last.LastObject? && SymbolMayStart(st.objs[|st.objs| - 1])
    requires bracket == "[\n" || bracket == "{\n"
    ensures ReadItems(st, ["[\n"] + ([bracket] + rest), load) == Exception
  {
    hide ReadItems;
    ReadNextItem(st, "[\n", [bracket] + rest, load);
    var inside := st.(objs := [], last := Outside, stack := st.stack + [st.objs]);
    assert ReadItem(st, "[\n", [bracket] + rest, load) == Step(inside, [bracket] + rest);
    ReadNextItem(inside, bracket, rest, load);
  }

  // Lists of texts

  /** A text in a list which can't be parsed is one error and is skipped. */
  lemma MalformedInList(format: FileFormat, line: string, tail: seq<string>)
    requires IsCurrent(format, 'T') && line != "" && line[0] == 'T' && Sscanf(line, [C] + Ints(9)) == None
    ensures ReadAttached(format, [line] + tail) == CountErrors(1, ReadAttached(format, tail))
  {
    hide Sscanf;
    assert ([line] + tail)[1..] == tail;
  }

  /** A text in a list which has got an invalid size or display raises an
      exception. */
  lemma InvalidInList(format: FileFormat, line: string, tail: seq<string>)
    requires IsCurrent(format, 'T') && line != "" && line[0] == 'T'
    requires
      var r := Sscanf(line, [C] + Ints(9));
      r.Some? && (r.value[4].n < 0 || r.value[6].n !in {0, 1, 2})
    ensures ReadAttached(format, [line] + tail) == Failed(Exception)
  {
    hide Sscanf, TakeText;
    assert ([line] + tail)[1..] == tail;
  }
}
