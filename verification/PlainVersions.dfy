/** Files with other version numbers: which objects look different in them. */
module PlainVersions {
  import opened Wrappers
  import opened Sequences
  import opened ObjectData
  import opened Decimals
  import opened PlainFormat
  import opened PlainText
  import opened PlainLines
  import opened PlainObjects
  import opened Streams
  import opened Drawings
  import opened PlainWrite
  import opened PlainRead
  import opened PlainReturn
  import opened PlainRoundTrip

  // Version numbers

  /** The files in which an object starting with a certain letter looks as it does
      in current files: lines, boxes, circles and arcs have got styles, pins and
      buses have got directions, and texts have got a number of lines. */
  lemma CurrentExactlyIf(release: nat, fileformat: nat, c: char)
    ensures IsCurrent(VersionOf(release, fileformat), c) <==>
      && (c in "LBVA" ==> release > 20000704)
      && (c in "UP" ==> release > 20020825)
      && (c == 'T' ==> release > 20030921 && fileformat >= 1)
  {
  }

  /** An object is current in all formats since the last change, and some object
      isn't in any other format. */
  lemma ModernExactlyIf(release: nat, fileformat: nat)
    ensures (forall o {:trigger IsCurrentObject(VersionOf(release, fileformat), o)} ::
               IsCurrentObject(VersionOf(release, fileformat), o))
       <==> release > 20030921 && fileformat >= 1
  {
    var f := VersionOf(release, fileformat);
    if release > 20030921 && fileformat >= 1 {
      forall o
        ensures IsCurrentObject(f, o)
      {
        ObjectIsCurrent(o, f);
      }
    } else {
      var t := Obj(TextData(Text(0, 0, 3, 10, true, 0, 0, 0, "a")), []);
      hide IsCurrentObject, IsCurrent;
      OldText(release, fileformat, t);
      assert !IsCurrentObject(VersionOf(release, fileformat), t);
    }
  }

  lemma OldText(release: nat, fileformat: nat, t: Obj)
    requires t.data.TextData? && !(release > 20030921 && fileformat >= 1)
    ensures !IsCurrentObject(VersionOf(release, fileformat), t)
  {
  }

  /** A line with a version number, but without a file format number. */
  lemma ShortVersionIsRead(release: nat)
    ensures ParseVersion(FieldLine([Chr('v'), Int(release)])) == Some(VersionOf(release, 0))
  {
    hide FieldLine, ParseFields, Split, Join, FormatFields, IsWord, IsSpace;
    var fields := [Chr('v'), Int(release)];
    hide Sscanf;
    assert !IsSpace('v') by {
      NoSpace();
    }
    LineReturns(fields, [C, U]);
    TwoWords(fields);
  }

  lemma NoSpace()
    ensures !IsSpace('v')
  {
  }

  /** A line of two fields can't be read as three. */
  lemma TwoWords(fields: seq<Field>)
    requires |fields| == 2 && fields[0].Chr? && !IsSpace(fields[0].c) && fields[1].Int?
    ensures Sscanf(FieldLine(fields), [C, U, U]) == None
  {
    hide IsSpace, IsWord, ParseFields, Split, Join, FormatFields;
    var words := FormatFields(fields);
    WordsOfTwo(fields);
    SplitJoined(words);
    JoinedChars(words);
    var t := Join(words);
    assert (t + "\n")[..|t + "\n"| - 1] == t;
  }

  lemma WordsOfTwo(fields: seq<Field>)
    requires |fields| == 2 && fields[0].Chr? && !IsSpace(fields[0].c) && fields[1].Int?
    ensures forall w :: w in FormatFields(fields) ==> IsWord(w)
  {
    hide IsWord, IsSpace, FormatField, Fits;
    FitsTwo(fields);
    FieldsReturn(fields, [C, D]);
  }

  lemma FitsTwo(fields: seq<Field>)
    requires |fields| == 2 && fields[0].Chr? && !IsSpace(fields[0].c) && fields[1].Int?
    ensures forall i :: 0 <= i < |fields| ==> Fits(fields[i], [C, D][i])
  {
  }

  // Old objects

  /** The texts of an object are complete and free of returns, whatever the format
      may be. */
  lemma PartsAreClean(o: Obj, ripper: RipperDirection, load: Loaders)
    requires IsStored(o) && IsWritableObject(o, load)
    ensures IsClean(EmbeddedText(o, ripper)) && IsClean(AttachedText(o.attached))
    ensures AreCleanTexts(o.attached)
  {
    hide EmbeddedText, AttachedText, IsClean, ReadItems, IsCurrentObject, IsCurrent;
    var st := PlainRead.START.(format := CURRENT);
    ObjectIsCurrent(o, CURRENT);
    SymbolReads(st, o, ripper, [], load);
    TextsAreCurrent(CURRENT);
    if o.attached != [] {
      AttachedLines(CURRENT, o.attached);
    } else {
      NothingAttached();
    }
  }

  lemma TextsAreCurrent(format: FileFormat)
    requires format.release > VERSION_20030921 && format.fileformat >= 1
    ensures IsCurrent(format, 'T')
  {
  }

  lemma NothingAttached()
    ensures IsClean(AttachedText([]))
  {
  }

  /** Reading stops at the first line of an object which looks different. */
  lemma FirstLineStops(st: State, d: Data<Symbol, Pixmap>, ripper: int, rest: seq<string>, load: Loaders)
    requires IsGood(st) && !IsCurrent(st.format, Letter(d)) && Returns(d, ripper, load)
    ensures ReadItems(st, [FieldLine(Fields(d, ripper))] + rest, load) == OldFormat
  {
    hide SplitLines, Payload, Fields, FieldLine, ReadItems, ReadObject, Letter, IsCurrent, IsGood;
    LetterIsFirst(d, ripper);
    ReadNextItem(st, FieldLine(Fields(d, ripper)), rest, load);
  }

  /** It also stops at texts which are attached. */
  lemma AttachedStop(st: State, texts: seq<Text>, rest: seq<string>, load: Loaders)
    requires IsGood(st) && !IsCurrent(st.format, 'T') && st.last.LastObject?
    requires texts != [] && AreCleanTexts(texts) && CanHaveChildren(st.objs[|st.objs| - 1].data)
    ensures ReadItems(st, SplitLines(AttachedText(texts)) + rest, load) == OldFormat
  {
    hide SplitLines, TextsText, ReadAttached, IsClean, ReadItems, IsCurrent, AreCleanTexts;
    TextsAreCurrent(CURRENT);
    AttachedLines(CURRENT, texts);
    var lines := SplitLines(TextsText(texts)) + (["}\n"] + rest);
    Associative(["{\n"], SplitLines(TextsText(texts)) + ["}\n"], rest);
    Associative(SplitLines(TextsText(texts)), ["}\n"], rest);
    ReadNextItem(st, "{\n", lines, load);
    FirstTextStops(st.format, texts, ["}\n"] + rest);
  }

  lemma FirstTextStops(format: FileFormat, texts: seq<Text>, rest: seq<string>)
    requires texts != [] && AreCleanTexts(texts) && !IsCurrent(format, 'T')
    ensures ReadAttached(format, SplitLines(TextsText(texts)) + rest) == Failed(OldFormat)
  {
    hide SplitLines, Fields, FieldLine, Payload, IsCurrent, TextText;
    var t := texts[0];
    var d: Data<Symbol, Pixmap> := TextData(t);
    assert TextIsStored(t) && TextIsClean(t.text);
    TextLines(t, TextsText(texts[1..]));
    LetterIsFirst(d, 0);
    var line := FieldLine(Fields(d, 0));
    var lines := SplitLines(TextsText(texts)) + rest;
    assert lines != [] && lines[0] == line;
  }

  lemma ObjectStops(st: State, rev: seq<Obj>, o: Obj, ripper: RipperDirection, rest: seq<string>, load: Loaders)
    requires IsGood(st) && !IsCurrentObject(st.format, o)
    requires IsStored(o) && IsWritableObject(o, load)
    ensures ReadItems(st, SplitLines(ObjectText(rev, o, ripper)) + rest, load) == OldFormat
    decreases Height(o), 1
  {
    hide SplitLines, ReadItems, IsClean, EmbeddedText, AttachedText, Payload, Fields, FieldLine, IsWritable, Raw, Returns,
      IsCurrent, ObjectText, AreCleanTexts, IsGood, Letter;
    var r := if o.data.NetData? then ripper(rev, o.data.net) else 0;
    var p, e, a := SplitLines(Payload(o.data)), SplitLines(EmbeddedText(o, ripper)), SplitLines(AttachedText(o.attached));
    PartsAreClean(o, ripper, load);
    DataReturns(o.data, r, load);
    ObjectLines(rev, o, ripper, r, load);
    var line := [FieldLine(Fields(o.data, r))];
    Associative(line, p + (e + a), rest);
    Associative(p, e + a, rest);
    Associative(e, a, rest);
    if !IsCurrent(st.format, Letter(o.data)) {
      FirstLineStops(st, o.data, r, (p + (e + a)) + rest, load);
    } else {
      DataReads(st, o.data, r, e + (a + rest), load);
      if IsEmbedded(o) && HasContents(o) && !AreCurrent(st.format, Inner(o)) {
        SymbolStops(st, o, ripper, a + rest, load);
      } else {
        AttachedListStops(st, o, ripper, rest, load);
      }
    }
  }

  /** The texts attached to an object which is current itself. */
  lemma AttachedListStops(st: State, o: Obj, ripper: RipperDirection, rest: seq<string>, load: Loaders)
    requires IsGood(st) && IsCurrent(st.format, Letter(o.data)) && !IsCurrent(st.format, 'T') && o.attached != []
    requires IsEmbedded(o) && HasContents(o) ==> AreCurrent(st.format, Inner(o))
    requires IsStored(o) && IsWritableObject(o, load)
    requires IsGood(AfterData(st, o.data)) && AreCleanTexts(o.attached)
    ensures ReadItems(AfterData(st, o.data),
                      SplitLines(EmbeddedText(o, ripper)) + (SplitLines(AttachedText(o.attached)) + rest), load) == OldFormat
  {
    hide SplitLines, ReadItems, IsClean, EmbeddedText, AttachedText, IsCurrent, AreCleanTexts, Letter, IsGood, AreCurrent,
      IsStored, IsWritableObject, Raw;
    var bare := Obj(o.data, []);
    BareObject(st.format, o, ripper, load);
    SymbolReads(st, bare, ripper, SplitLines(AttachedText(o.attached)) + rest, load);
    AttachedMayFollow(st, o);
    AttachedStop(AfterSymbol(st, bare), o.attached, rest, load);
  }

  /** Without the attached texts, the object is read as usual. */
  lemma BareObject(format: FileFormat, o: Obj, ripper: RipperDirection, load: Loaders)
    requires IsCurrent(format, Letter(o.data)) && (IsEmbedded(o) && HasContents(o) ==> AreCurrent(format, Inner(o)))
    requires IsStored(o) && IsWritableObject(o, load)
    ensures
      var bare := Obj(o.data, []);
      && IsStored(bare) && IsWritableObject(bare, load) && IsCurrentObject(format, bare)
      && EmbeddedText(bare, ripper) == EmbeddedText(o, ripper)
  {
    hide IsCurrent, Letter, AreCurrent, AreWritable, IsWritable, PlaceAll, ObjectsText, AreStored;
    var bare := Obj(o.data, []);
    assert Inner(bare) == Inner(o);
    assert ContentsText(bare, ripper) == ContentsText(o, ripper);
  }

  lemma AttachedMayFollow(st: State, o: Obj)
    requires IsStored(o) && o.attached != []
    ensures
      var bare := Obj(o.data, []);
      IsStored(bare) &&
      var s := AfterSymbol(st, bare);
      s.last.LastObject? && s.objs != [] && CanHaveChildren(s.objs[|s.objs| - 1].data)
  {
  }

  lemma SymbolStops(st: State, o: Obj, ripper: RipperDirection, rest: seq<string>, load: Loaders)
    requires IsGood(st) && IsGood(AfterData(st, o.data))
    requires IsStored(o) && IsWritableObject(o, load) && IsEmbedded(o) && HasContents(o)
    requires !AreCurrent(st.format, Inner(o))
    ensures ReadItems(AfterData(st, o.data), SplitLines(EmbeddedText(o, ripper)) + rest, load) == OldFormat
    decreases Height(o), 0
  {
    hide SplitLines, ReadItems, IsClean, IsStored, Raw, ObjectsText, AfterAll, AreCurrent, AreWritable;
    var placed := PlacedContents(o);
    var s := ContentsText(o, ripper);
    var inside := st.(objs := [], last := Outside, stack := st.stack + [AfterData(st, o.data).objs]);
    ContentsAreClean(o, ripper, load);
    SymbolStarts(st, o, inside, SplitLines(s) + (["]\n"] + rest), load);
    BracketLines("[\n", s, "]\n");
    Associative(["[\n"], SplitLines(s) + ["]\n"], rest);
    Associative(SplitLines(s), ["]\n"], rest);
    PlacedAreCurrent(st.format, Inner(o), PlacementOf(o.data.component));
    ObjectsStop(inside, placed, placed, ripper, ["]\n"] + rest, load);
  }

  lemma ContentsAreClean(o: Obj, ripper: RipperDirection, load: Loaders)
    requires IsStored(o) && IsWritableObject(o, load) && IsEmbedded(o) && HasContents(o)
    ensures IsClean(ContentsText(o, ripper))
    ensures AngleIsValid(o.data.component.angle) && AreStored(PlacedContents(o))
    ensures PlacedContents(o) == PlaceAll(Inner(o), PlacementOf(o.data.component))
    ensures AreWritable(PlacedContents(o), load) && HeightAll(PlacedContents(o)) < Height(o)
    ensures ContentsText(o, ripper) == ObjectsText(PlacedContents(o), PlacedContents(o), ripper)
  {
    hide IsClean, ReadItems, IsCurrentObject, IsCurrent, AreCurrent, AreWritable, PlaceAll, ObjectsText;
    var placed := PlacedContents(o);
    assert AreWritable(Inner(o), load);
    PlacedAreWritable(Inner(o), PlacementOf(o.data.component), load);
    AllAreCurrent(placed, CURRENT);
    ObjectsRead(PlainRead.START.(format := CURRENT), placed, placed, ripper, [], load);
  }

  lemma ObjectsStop(st: State, rev: seq<Obj>, objs: seq<Obj>, ripper: RipperDirection, rest: seq<string>, load: Loaders)
    requires IsGood(st) && !AreCurrent(st.format, objs)
    requires AreStored(objs) && AreWritable(objs, load)
    ensures ReadItems(st, SplitLines(ObjectsText(rev, objs, ripper)) + rest, load) == OldFormat
    decreases HeightAll(objs), 2, |objs|
  {
    hide SplitLines, ReadItems, IsClean, ObjectText, Raw, IsStored, IsWritableObject, IsCurrentObject, IsGood;
    RestIsStored(objs);
    RestIsWritable(objs, load);
    RestIsCurrent(st.format, objs);
    var first, others := ObjectText(rev, objs[0], ripper), ObjectsText(rev, objs[1..], ripper);
    ObjectIsClean(rev, objs[0], ripper, load);
    SplitClean(first, others);
    Associative(SplitLines(first), SplitLines(others), rest);
    if IsCurrentObject(st.format, objs[0]) {
      ObjectReads(st, rev, objs[0], ripper, SplitLines(others) + rest, load);
      ObjectsStop(After(st, objs[0]), rev, objs[1..], ripper, rest, load);
    } else {
      ObjectStops(st, rev, objs[0], ripper, SplitLines(others) + rest, load);
    }
  }

  lemma ObjectIsClean(rev: seq<Obj>, o: Obj, ripper: RipperDirection, load: Loaders)
    requires IsStored(o) && IsWritableObject(o, load)
    ensures IsClean(ObjectText(rev, o, ripper))
  {
    hide IsClean, ReadItems, IsCurrentObject, IsCurrent, ObjectText;
    ObjectIsCurrent(o, CURRENT);
    ObjectReads(PlainRead.START.(format := CURRENT), rev, o, ripper, [], load);
  }

  /** A file whose first line has got any version numbers: if all objects look as
      they do in current files, they are read as usual, and otherwise, reading
      stops at the first one which doesn't. */
  lemma AnyVersionIsRead(release: nat, fileformat: nat, objs: seq<Obj>, ripper: RipperDirection, load: Loaders)
    requires AreStored(objs) && AreWritable(objs, load)
    ensures FileContents(VersionLine(release, fileformat) + ObjectsText(objs, objs, ripper), load)
      == if AreCurrent(VersionOf(release, fileformat), objs) then Finished(RereadAll(objs), 0) else OldFormat
  {
    hide VersionLine, ObjectsText, ReadItems, VersionOf, ParseVersion, AreCurrent, RereadAll, AreWritable;
    if AreCurrent(VersionOf(release, fileformat), objs) {
      VersionReturns(release, fileformat, objs, ripper, load);
    } else {
      var line := VersionLine(release, fileformat);
      var st := PlainRead.START.(format := VersionOf(release, fileformat));
      var lines := SplitLines(ObjectsText(objs, objs, ripper));
      VersionIsRead(release, fileformat);
      ObjectsAreClean(objs, ripper, load);
      FileLines(line, objs, ripper);
      ReadNextItem(PlainRead.START, line, lines, load);
      VersionItem(line, VersionOf(release, fileformat), lines, load);
      ObjectsStop(st, objs, objs, ripper, [], load);
      assert lines + [] == lines;
    }
  }

  lemma ObjectsAreClean(objs: seq<Obj>, ripper: RipperDirection, load: Loaders)
    requires AreStored(objs) && AreWritable(objs, load)
    ensures IsClean(ObjectsText(objs, objs, ripper))
  {
    hide IsClean, ReadItems, AreCurrent, AreWritable, ObjectsText;
    AllAreCurrent(objs, CURRENT);
    ObjectsRead(PlainRead.START.(format := CURRENT), objs, objs, ripper, [], load);
  }
}
