/** Lines between the objects of a file: comments are skipped, and each line
    without meaning is one error but doesn't change what is read. */
module PlainStray {
  import opened Wrappers
  import opened Sequences
  import opened ObjectData
  import opened PlainFormat
  import opened PlainText
  import opened PlainLines
  import opened PlainObjects
  import opened Streams
  import opened Drawings
  import opened PlainWrite
  import opened PlainRead
  import opened PlainReturn
  import opened PlainRoundTrip
  import opened PlainVersions

  // Errors are added up

  function MoreErrors(r: Outcome, k: nat): Outcome {
    if r.Finished? then Finished(r.objs, r.errors + k) else r
  }

  function StepWithErrors(s: Step, k: nat): Step {
    if s.Step? then Step(s.st.(errors := s.st.errors + k), s.rest) else s
  }

  lemma ItemWithErrors(st: State, k: nat, line: string, rest: seq<string>, load: Loaders)
    requires IsGood(st) && line != ""
    ensures IsGood(st.(errors := st.errors + k))
    ensures ReadItem(st.(errors := st.errors + k), line, rest, load) == StepWithErrors(ReadItem(st, line, rest, load), k)
  {
    hide ReadNewObject, ReadAttributes, StartSymbol, EndSymbol, ParseVersion, IsObjectType, IsGood;
    ErrorsAreGood(st, k);
    if IsObjectType(line[0]) {
      NewObjectWithErrors(st, k, line, rest, load);
    } else if line[0] == '{' {
      AttributesWithErrors(st, k, rest);
    } else if line[0] == '[' {
      StartWithErrors(st, k, rest);
    } else if line[0] == ']' {
      EndWithErrors(st, k, rest);
    }
  }

  lemma NewObjectWithErrors(st: State, k: nat, line: string, rest: seq<string>, load: Loaders)
    requires IsGood(st) && IsGood(st.(errors := st.errors + k)) && line != "" && IsObjectType(line[0])
    ensures ReadNewObject(st.(errors := st.errors + k), line, rest, load)
      == StepWithErrors(ReadNewObject(st, line, rest, load), k)
  {
    hide ReadObject, IsObjectType, IsCurrent, Normalize, DataIsValid, IsGood;
  }

  lemma AttributesWithErrors(st: State, k: nat, rest: seq<string>)
    requires IsGood(st) && IsGood(st.(errors := st.errors + k))
    ensures ReadAttributes(st.(errors := st.errors + k), rest) == StepWithErrors(ReadAttributes(st, rest), k)
  {
    hide ReadAttached, CanHaveChildren;
  }

  lemma StartWithErrors(st: State, k: nat, rest: seq<string>)
    requires IsGood(st) && IsGood(st.(errors := st.errors + k))
    ensures StartSymbol(st.(errors := st.errors + k), rest) == StepWithErrors(StartSymbol(st, rest), k)
  {
    hide SymbolMayStart;
  }

  lemma EndWithErrors(st: State, k: nat, rest: seq<string>)
    requires IsGood(st) && IsGood(st.(errors := st.errors + k))
    ensures EndSymbol(st.(errors := st.errors + k), rest) == StepWithErrors(EndSymbol(st, rest), k)
  {
    hide FillSymbol;
  }

  /** Errors which have been reported before don't have any influence on what
      follows. */
  lemma {:induction false} ErrorsAddUp(st: State, k: nat, lines: seq<string>, load: Loaders)
    requires IsGood(st)
    ensures IsGood(st.(errors := st.errors + k))
    ensures ReadItems(st.(errors := st.errors + k), lines, load) == MoreErrors(ReadItems(st, lines, load), k)
    decreases |lines|
  {
    hide ReadItem, IsGood;
    ErrorsAreGood(st, k);
    if lines == [] {
      FinishWithErrors(st, k);
    } else if lines[0] == "" {
      ErrorsAddUp(st, k, lines[1..], load);
    } else {
      ItemWithErrors(st, k, lines[0], lines[1..], load);
      var s := ReadItem(st, lines[0], lines[1..], load);
      if s.Step? {
        ErrorsAddUp(s.st, k, s.rest, load);
      } else {
        StopsUnfinished(st, lines[0], lines[1..], load);
      }
    }
  }

  lemma ErrorsAreGood(st: State, k: nat)
    requires IsGood(st)
    ensures IsGood(st.(errors := st.errors + k))
  {
  }

  lemma FinishWithErrors(st: State, k: nat)
    requires IsGood(st) && IsGood(st.(errors := st.errors + k))
    ensures Finish(st.(errors := st.errors + k)) == MoreErrors(Finish(st), k)
  {
    hide FinishAll, MissingSymbols, HasPin, IsGood;
  }

  lemma {:induction false} AttachedUnfinished(format: FileFormat, lines: seq<string>)
    ensures var a := ReadAttached(format, lines); a.Failed? ==> !a.outcome.Finished?
    decreases |lines|
  {
    hide ReadText, TextIsValid, IsCurrent;
    if lines != [] {
      var line, rest := lines[0], lines[1..];
      if line == "" {
        AttachedUnfinished(format, rest);
      } else if line[0] == 'T' {
        var p := ReadText(line, rest);
        if p.Parsed? {
          AttachedUnfinished(format, p.rest);
        }
      } else if line[0] != '}' {
        AttachedUnfinished(format, rest);
      }
    }
  }

  lemma StopsUnfinished(st: State, line: string, rest: seq<string>, load: Loaders)
    requires IsGood(st) && line != ""
    ensures var s := ReadItem(st, line, rest, load); s.Stop? ==> !s.outcome.Finished?
  {
    hide ReadObject, ReadAttached, ParseVersion, IsObjectType, IsCurrent, Normalize, DataIsValid;
    AttachedUnfinished(st.format, rest);
  }

  // Lines without meaning

  /** Whether a line which starts with some character doesn't mean anything after
      some objects: comments and fonts, brackets without anything to which they
      could belong, and everything which isn't known. */
  predicate IsStray(c: char, before: seq<Obj>) {
    && !IsObjectType(c) && c != 'v'
    && (c == '{' ==> before == [] || !MayTakeTexts(before[|before| - 1]))
  }

  /** Whether a list of texts may follow an object: it hasn't got one already. */
  predicate MayTakeTexts(o: Obj) {
    o.attached == [] && CanHaveChildren(o.data)
  }

  predicate IsComment(c: char) {
    c == '#' || c == 'F'
  }

  lemma StrayItem(st: State, before: seq<Obj>, line: string, rest: seq<string>, load: Loaders)
    requires IsGood(st) && st.stack == [] && line != "" && IsStray(line[0], before)
    requires IsAfter(st, before)
    ensures IsGood(st.(errors := st.errors + 1))
    ensures ReadItem(st, line, rest, load) ==
      Step(if IsComment(line[0]) then st else st.(errors := st.errors + 1), rest)
  {
    hide ParseVersion;
  }

  /** What is known about the last object. */
  ghost predicate IsAfter(st: State, before: seq<Obj>) {
    if before == [] then st.last.Nothing?
    else
      && st.objs != []
      && (var o, r := before[|before| - 1], st.objs[|st.objs| - 1];
          && (st.last.LastObject? <==> o.attached == []) && (st.last.Nothing? <==> o.attached != [])
          && CanHaveChildren(r.data) == CanHaveChildren(o.data) && !SymbolMayStart(r))
  }

  lemma {:induction false} AfterAllIsAfter(st: State, objs: seq<Obj>)
    requires IsGood(st) && AreStored(objs)
    ensures objs != [] ==> IsAfter(AfterAll(st, objs), objs)
    ensures objs == [] ==> AfterAll(st, objs) == st
    decreases |objs|
  {
    hide IsAfter, IsGood, Raw, IsStored;
    if objs != [] {
      RestIsStored(objs);
      AfterIsGood(st, objs[0]);
      AfterAllIsAfter(After(st, objs[0]), objs[1..]);
      if |objs| == 1 {
        OneIsAfter(st, objs[0]);
        assert objs == [objs[0]];
      } else {
        SameLast(AfterAll(st, objs), objs[1..], objs);
      }
    }
  }

  lemma SameLast(st: State, a: seq<Obj>, b: seq<Obj>)
    requires a != [] && b != [] && a[|a| - 1] == b[|b| - 1] && IsAfter(st, a)
    ensures IsAfter(st, b)
  {
  }

  lemma OneIsAfter(st: State, o: Obj)
    requires IsStored(o)
    ensures IsAfter(After(st, o), [o])
  {
    hide RawAll, PlacedContents, IsStored;
  }

  lemma {:induction false} RawAllSplits(a: seq<Obj>, b: seq<Obj>)
    requires AreStored(a) && AreStored(b)
    ensures AreStored(a + b) && RawAll(a + b) == RawAll(a) + RawAll(b)
  {
    var all := a + b;
    assert forall i :: 0 <= i < |all| ==> all[i] == if i < |a| then a[i] else b[i - |a|];
    hide Raw, IsStored;
    assert AreStored(all);
    var r, s := RawAll(all), RawAll(a) + RawAll(b);
    assert forall i :: 0 <= i < |r| ==> r[i] == s[i];
  }

  /** The state after the objects in the first part of a file. */
  function AfterFirst(before: seq<Obj>): State
    requires AreStored(before)
  {
    AfterAll(START.(format := CURRENT), before)
  }

  /** A file of two parts with a line between them. */
  lemma TwoParts(before: seq<Obj>, line: string, after: seq<Obj>, ripper: RipperDirection, load: Loaders)
    requires AreStored(before) && AreStored(after) && AreWritable(before, load) && AreWritable(after, load)
    requires IsLine(line) && '\r' !in line
    ensures IsGood(AfterFirst(before))
    ensures FileContents(FileText(before, ripper) + line + ObjectsText(after, after, ripper), load)
      == ReadItems(AfterFirst(before), [line] + SplitLines(ObjectsText(after, after, ripper)), load)
  {
    hide Header, ObjectsText, SplitLines, ReadItems, AreStored, AreWritable, AfterFirst, IsClean, IsLine, IsGood;
    var a, b := ObjectsText(before, before, ripper), ObjectsText(after, after, ripper);
    var lines := [line] + SplitLines(b);
    HeaderIsSkipped(SplitLines(a) + lines, load);
    FirstPartIsRead(before, ripper, lines, load);
    ObjectsAreClean(before, ripper, load);
    ObjectsAreClean(after, ripper, load);
    FileParts(Header(), a, line, b);
  }

  lemma HeaderIsSkipped(lines: seq<string>, load: Loaders)
    ensures IsLine(Header()) && IsClean(Header()) && IsGood(START) && IsGood(START.(format := CURRENT))
    ensures ReadItems(START, [Header()] + lines, load) == ReadItems(START.(format := CURRENT), lines, load)
  {
    hide VersionLine, ReadItems, ParseVersion, IsClean;
    assert Header() == VersionLine(RELEASE_VERSION, FILEFORMAT_VERSION) by {
      HeaderIsVersion();
    }
    VersionIsRead(RELEASE_VERSION, FILEFORMAT_VERSION);
    VersionItem(Header(), CURRENT, lines, load);
    ReadNextItem(START, Header(), lines, load);
  }

  lemma HeaderIsVersion()
    ensures Header() == VersionLine(RELEASE_VERSION, FILEFORMAT_VERSION)
  {
  }

  lemma FirstPartIsRead(before: seq<Obj>, ripper: RipperDirection, lines: seq<string>, load: Loaders)
    requires AreStored(before) && AreWritable(before, load) && IsGood(START.(format := CURRENT))
    ensures IsGood(AfterFirst(before))
    ensures ReadItems(START.(format := CURRENT), SplitLines(ObjectsText(before, before, ripper)) + lines, load)
      == ReadItems(AfterFirst(before), lines, load)
  {
    hide ObjectsText, SplitLines, ReadItems, AreStored, AreWritable, AfterAll, AreCurrent, IsGood;
    AllAreCurrent(before, CURRENT);
    ObjectsRead(START.(format := CURRENT), before, before, ripper, lines, load);
  }

  lemma FileParts(header: string, a: string, line: string, b: string)
    requires IsLine(header) && IsClean(header) && IsClean(a) && IsLine(line) && '\r' !in line && IsClean(b)
    ensures StripReturns(SplitLines(header + a + line + b)) == [header] + (SplitLines(a) + ([line] + SplitLines(b)))
  {
    hide SplitLines, StripReturns, IsLine, IsComplete, HasNoReturns;
    LineIsClean(line);
    CleanSum(header, a);
    CleanSum(header + a, line);
    CleanSum(header + a + line, b);
    NothingToStrip(header + a + line + b);
    SplitClean(header + a + line, b);
    SplitClean(header + a, line);
    SplitFirstLine(header, a);
    SplitFirstLine(line, "");
    SplitNothing();
    assert line + "" == line;
    Associative([header], SplitLines(a), [line]);
    Associative([header], SplitLines(a) + [line], SplitLines(b));
    Associative(SplitLines(a), [line], SplitLines(b));
  }

  /** A comment between two objects is skipped, and so is any other line without a
      meaning, which is reported as one error. */
  lemma StrayLineIsCounted(before: seq<Obj>, line: string, after: seq<Obj>, ripper: RipperDirection, load: Loaders)
    requires AreStored(before) && AreStored(after) && AreWritable(before, load) && AreWritable(after, load)
    requires IsLine(line) && '\r' !in line && IsStray(line[0], before)
    ensures AreStored(before + after)
    ensures FileContents(FileText(before, ripper) + line + ObjectsText(after, after, ripper), load)
      == Finished(RereadAll(before + after), if IsComment(line[0]) then 0 else 1)
  {
    hide FileText, FileContents, ObjectsText, SplitLines, ReadItem, AreStored, AreWritable, AfterFirst, IsGood, IsLine, IsAfter,
      IsStray;
    StateAfterFirst(before);
    LineIsNonempty(line);
    StrayItem(AfterFirst(before), before, line, SplitLines(ObjectsText(after, after, ripper)), load);
    LineIsSkipped(before, line, if IsComment(line[0]) then 0 else 1, after, ripper, load);
  }

  lemma LineIsNonempty(line: string)
    requires IsLine(line)
    ensures line != ""
  {
  }

  /** A line between two objects which is skipped with some errors. */
  lemma LineIsSkipped(before: seq<Obj>, line: string, k: nat, after: seq<Obj>, ripper: RipperDirection, load: Loaders)
    requires AreStored(before) && AreStored(after) && AreWritable(before, load) && AreWritable(after, load)
    requires IsLine(line) && '\r' !in line && IsGood(AfterFirst(before))
    requires
      var st := AfterFirst(before);
      ReadItem(st, line, SplitLines(ObjectsText(after, after, ripper)), load)
        == Step(st.(errors := st.errors + k), SplitLines(ObjectsText(after, after, ripper)))
    ensures AreStored(before + after)
    ensures FileContents(FileText(before, ripper) + line + ObjectsText(after, after, ripper), load)
      == Finished(RereadAll(before + after), k)
  {
    hide FileText, FileContents, ObjectsText, SplitLines, ReadItems, ReadItem, AreStored, AreWritable, AfterAll, RawAll,
      AreCurrent, IsGood, AfterFirst, IsAfter, IsLine;
    TwoParts(before, line, after, ripper, load);
    var st := AfterFirst(before);
    AllAreCurrent(before + after, CURRENT);
    RawAllSplits(before, after);
    StateAfterFirst(before);
    var lines := SplitLines(ObjectsText(after, after, ripper));
    LineIsNonempty(line);
    ReadNextItem(st, line, lines, load);
    RestIsRead(st, before, after, ripper, load);
    ErrorsAddUp(st, k, lines, load);
  }

  lemma StateAfterFirst(before: seq<Obj>)
    requires AreStored(before)
    ensures
      var st := AfterFirst(before);
      && IsGood(st) && st.stack == [] && st.errors == 0 && st.format == CURRENT
      && st.objs == RawAll(before) && IsAfter(st, before)
  {
    hide AreStored, AfterAll, RawAll;
    var st := START.(format := CURRENT);
    assert IsGood(st);
    AfterAllIsAfter(st, before);
    AfterAllAppends(st, before);
    assert [] + RawAll(before) == RawAll(before);
  }

  lemma RestIsRead(st: State, before: seq<Obj>, after: seq<Obj>, ripper: RipperDirection, load: Loaders)
    requires AreStored(before) && AreStored(after) && AreStored(before + after) && AreWritable(after, load)
    requires RawAll(before + after) == RawAll(before) + RawAll(after)
    requires IsGood(st) && st.stack == [] && st.errors == 0 && st.format == CURRENT && st.objs == RawAll(before)
    ensures ReadItems(st, SplitLines(ObjectsText(after, after, ripper)), load) == Finished(RereadAll(before + after), 0)
  {
    hide ObjectsText, SplitLines, ReadItems, AreStored, AreWritable, AfterAll, RawAll, AreCurrent, IsGood, RereadAll;
    AllAreCurrent(after, CURRENT);
    AllAreCurrent(before + after, CURRENT);
    ObjectsRead(st, after, after, ripper, [], load);
    AfterAllAppends(st, after);
    var lines := SplitLines(ObjectsText(after, after, ripper));
    assert lines + [] == lines;
    assert [] + RawAll(before + after) == RawAll(before + after);
    AtTheEnd(AfterAll(st, after), before + after, load);
  }

  // Other lines

  /** A version line after some objects: pins which have been read before aren't
      known to have a direction if this is missing in the format. */
  lemma LateVersionCounts(objs: seq<Obj>, release: nat, fileformat: nat, ripper: RipperDirection, load: Loaders)
    requires AreStored(objs) && AreWritable(objs, load)
    ensures FileContents(FileText(objs, ripper) + VersionLine(release, fileformat), load)
      == Finished(RereadAll(objs), if release <= 20020825 && HasPin(objs) then 1 else 0)
  {
    hide FileText, FileContents, SplitLines, ReadItems, AreStored, AreWritable, AfterAll, RawAll, IsGood, FinishAll,
      ParseVersion, VersionLine;
    var line := VersionLine(release, fileformat);
    VersionIsRead(release, fileformat);
    VersionHasNoReturn(release, fileformat);
    NothingIsStored(load);
    TwoParts(objs, line, [], ripper, load);
    assert FileText(objs, ripper) + line + "" == FileText(objs, ripper) + line;
    SplitNothing();
    assert [line] + [] == [line];
    StateAfterFirst(objs);
    var st := AfterFirst(objs);
    ReadNextItem(st, line, [], load);
    LateVersionItem(st, line, VersionOf(release, fileformat), [], load);
    LateVersionEnds(st.(format := VersionOf(release, fileformat)), objs, load);
  }

  lemma VersionHasNoReturn(release: nat, fileformat: nat)
    ensures '\r' !in VersionLine(release, fileformat)
  {
    hide Sscanf, FieldLine;
    LineReturns([Chr('v'), Int(release), Int(fileformat)], [C, U, U]);
  }

  lemma NothingIsStored(load: Loaders)
    ensures AreStored([]) && AreWritable([], load)
  {
  }

  lemma LateVersionItem(st: State, line: string, format: FileFormat, rest: seq<string>, load: Loaders)
    requires IsGood(st) && line != "" && line[0] == 'v' && ParseVersion(line) == Some(format)
    ensures IsGood(st.(format := format))
    ensures ReadItem(st, line, rest, load) == Step(st.(format := format), rest)
  {
    hide ParseVersion;
  }

  lemma LateVersionEnds(st: State, objs: seq<Obj>, load: Loaders)
    requires AreStored(objs) && IsGood(st) && st.errors == 0 && st.objs == RawAll(objs)
    ensures ReadItems(st, [], load)
      == Finished(RereadAll(objs), if st.format.release <= 20020825 && HasPin(objs) then 1 else 0)
  {
    hide FinishAll, IsGood;
    NoSymbolIsMissing(RawAll(objs));
    SamePins(objs);
  }

  lemma SamePins(objs: seq<Obj>)
    requires AreStored(objs)
    ensures HasPin(RawAll(objs)) == HasPin(objs)
  {
    assert forall i :: 0 <= i < |objs| ==> (RawAll(objs)[i].data.NetData? <==> objs[i].data.NetData?);
    assert forall i :: 0 <= i < |objs| && objs[i].data.NetData? ==> RawAll(objs)[i].data == objs[i].data;
  }

  /** An embedded symbol whose brackets are missing is an error. */
  lemma MissingSymbolIsCounted(objs: seq<Obj>, c: Component<Symbol>, ripper: RipperDirection, load: Loaders)
    requires AreStored(objs) && AreWritable(objs, load)
    requires var d: Data<Symbol, Pixmap> := ComponentData(c); Storable(d) && IsWritable(d, load)
    requires c.symbol.embedded && c.symbol.contents.Missing?
    ensures FileContents(FileText(objs, ripper) + FieldLine(Fields(ComponentData(c), 0)), load)
      == Finished(RereadAll(objs) + [Obj(ComponentData(c), [])], 1)
  {
    hide FileText, FileContents, SplitLines, ReadItems, AreStored, AreWritable, AfterAll, RawAll, IsGood, FinishAll,
      FieldLine, ReadComplex, Fields, IsWritable;
    var d: Data<Symbol, Pixmap> := ComponentData(c);
    var line := FieldLine(Fields(d, 0));
    ComponentIsRead(c, [], load);
    NothingIsStored(load);
    TwoParts(objs, line, [], ripper, load);
    assert FileText(objs, ripper) + line + "" == FileText(objs, ripper) + line;
    SplitNothing();
    assert [line] + [] == [line];
    StateAfterFirst(objs);
    var st := AfterFirst(objs);
    ReadNextItem(st, line, [], load);
    NewComponent(st, line, c, load);
    MissingEnds(st, objs, c, load);
  }

  lemma NewComponent(st: State, line: string, c: Component<Symbol>, load: Loaders)
    requires IsGood(st) && line != "" && line[0] == 'C' && AngleIsValid(c.angle)
    requires ReadComplex(line, [], load) == Parsed(Some(ComponentData(c)), [], 0)
    ensures
      var more := st.(objs := st.objs + [Obj(ComponentData(c), [])], last := LastObject);
      IsGood(more) && ReadItem(st, line, [], load) == Step(more, [])
  {
    hide ReadComplex;
  }

  lemma MissingEnds(st: State, objs: seq<Obj>, c: Component<Symbol>, load: Loaders)
    requires AreStored(objs) && st.errors == 0 && st.objs == RawAll(objs) && st.format == CURRENT
    requires c.symbol.embedded && c.symbol.contents.Missing? && AngleIsValid(c.angle)
    requires
      var more := st.(objs := st.objs + [Obj(ComponentData(c), [])], last := LastObject);
      IsGood(more)
    ensures
      var more := st.(objs := st.objs + [Obj(ComponentData(c), [])], last := LastObject);
      ReadItems(more, [], load) == Finished(RereadAll(objs) + [Obj(ComponentData(c), [])], 1)
  {
    var o := Obj(ComponentData(c), []);
    var all := RawAll(objs) + [o];
    MissingSplits(RawAll(objs), [o]);
    NoSymbolIsMissing(RawAll(objs));
    assert MissingSymbols([o]) == 1;
    hide MissingSymbols;
    assert forall i :: 0 <= i < |objs| ==> all[i] == RawAll(objs)[i];
    assert FinishAll(all) == FinishAll(RawAll(objs)) + [o];
  }

  lemma {:induction false} MissingSplits(a: seq<Obj>, b: seq<Obj>)
    ensures MissingSymbols(a + b) == MissingSymbols(a) + MissingSymbols(b)
  {
    if a == [] {
      assert a + b == b;
    } else {
      MissingSplits(a[1..], b);
      assert (a + b)[1..] == a[1..] + b;
    }
  }

  // Lists of texts

  function PutTexts(texts: seq<Text>, a: Attached): Attached {
    if a.Failed? then a else Attached(texts + a.texts, a.rest, a.errors)
  }

  /** Texts in a list are read whatever follows. */
  lemma {:induction false} TextsReadThen(format: FileFormat, texts: seq<Text>, tail: seq<string>)
    requires AreCleanTexts(texts) && IsCurrent(format, 'T')
    ensures ReadAttached(format, SplitLines(TextsText(texts)) + tail) == PutTexts(texts, ReadAttached(format, tail))
  {
    hide SplitLines, TextText, ReadAttached, IsClean, IsCurrent;
    var a := ReadAttached(format, tail);
    if texts == [] {
      SplitNothing();
      assert [] + tail == tail;
      assert a.Attached? ==> [] + a.texts == a.texts;
    } else {
      var others := TextsText(texts[1..]);
      var lines := SplitLines(others) + tail;
      TextsReadThen(format, texts[1..], tail);
      TextLines(texts[0], others);
      FirstTextReads(format, texts[0], lines);
      var d: Data<Symbol, Pixmap> := TextData(texts[0]);
      var line := [FieldLine(Fields(d, 0))];
      Associative(line, SplitLines(Payload(d)) + SplitLines(others), tail);
      Associative(SplitLines(Payload(d)), SplitLines(others), tail);
      if a.Attached? {
        assert [texts[0]] + (texts[1..] + a.texts) == texts + a.texts;
      }
    }
  }

  /** A list which isn't ended before the end of the file is one error. */
  lemma UnterminatedList(format: FileFormat, texts: seq<Text>)
    requires AreCleanTexts(texts) && IsCurrent(format, 'T')
    ensures ReadAttached(format, SplitLines(TextsText(texts))) == Attached(texts, [], 1)
  {
    hide SplitLines, TextsText, AreCleanTexts, IsCurrent;
    TextsReadThen(format, texts, []);
    assert SplitLines(TextsText(texts)) + [] == SplitLines(TextsText(texts));
    assert texts + [] == texts;
  }

  /** Anything but a text in a list is one error and is skipped. */
  lemma StrayInList(format: FileFormat, texts: seq<Text>, line: string, more: seq<Text>, rest: seq<string>)
    requires AreCleanTexts(texts) && AreCleanTexts(more) && IsCurrent(format, 'T')
    requires line != "" && line[0] != 'T' && line[0] != '}'
    ensures ReadAttached(format, SplitLines(TextsText(texts)) + ([line] + (SplitLines(TextsText(more)) + (["}\n"] + rest))))
      == Attached(texts + more, rest, 1)
  {
    hide SplitLines, TextsText, AreCleanTexts, IsCurrent, ReadAttached;
    var tail := SplitLines(TextsText(more)) + (["}\n"] + rest);
    TextsRead(format, more, rest);
    StrayText(format, line, tail);
    TextsReadThen(format, texts, [line] + tail);
  }

  lemma StrayText(format: FileFormat, line: string, tail: seq<string>)
    requires line != "" && line[0] != 'T' && line[0] != '}'
    ensures ReadAttached(format, [line] + tail) == CountErrors(1, ReadAttached(format, tail))
  {
    assert ([line] + tail)[1..] == tail;
  }
}
