/** Reading back whole files. */
module PlainReturn {
  import opened Wrappers
  import opened Sequences
  import opened ObjectData
  import opened PlainFormat
  import opened PlainText
  import opened Decimals
  import opened PlainLines
  import opened PlainObjects
  import opened Streams
  import opened Base64
  import opened Base64RoundTrip
  import opened Drawings
  import opened PlainWrite
  import opened PlainRead

  // What can be written so that it can be read again

  ghost predicate IsWritableObject(o: Obj, load: Loaders)
    decreases Height(o), 0
  {
    && IsWritable(o.data, load)
    && (forall i :: 0 <= i < |o.attached| ==> TextIsClean(o.attached[i].text))
    && (HasContents(o) && IsEmbedded(o) ==> AreWritable(Inner(o), load))
  }

  ghost predicate AreWritable(objs: seq<Obj>, load: Loaders)
    decreases HeightAll(objs), 1
  {
    forall i :: 0 <= i < |objs| ==> IsWritableObject(objs[i], load)
  }

  lemma PlacedAreWritable(objs: seq<Obj>, p: Placement, load: Loaders)
    requires AngleIsValid(p.angle) && AreWritable(objs, load)
    ensures AreWritable(PlaceAll(objs, p), load)
  {
    forall i | 0 <= i < |objs|
      ensures IsWritableObject(PlaceAll(objs, p)[i], load)
    {
      PlacedIsWritable(objs[i], p, load);
    }
  }

  lemma PlacedIsWritable(o: Obj, p: Placement, load: Loaders)
    requires AngleIsValid(p.angle) && IsWritableObject(o, load)
    ensures IsWritableObject(PlaceObject(o, p), load)
  {
    var r := PlaceObject(o, p);
    forall i | 0 <= i < |o.attached|
      ensures TextIsClean(r.attached[i].text)
    {
      assert TextIsClean(o.attached[i].text);
    }
    assert IsWritable(Transform(o.data, p), load);
  }

  // The texts are clean

  lemma {:induction false} ConcatIsClean(lines: seq<string>)
    requires forall l :: l in lines ==> IsLine(l) && '\r' !in l
    ensures IsClean(Concat(lines))
  {
    if lines != [] {
      assert lines[0] in lines;
      assert forall l :: l in lines[1..] ==> l in lines;
      ConcatIsClean(lines[1..]);
      LineIsClean(lines[0]);
      CleanSum(lines[0], Concat(lines[1..]));
    }
  }

  lemma PixmapIsClean(p: Pixmap)
    requires p.filename.Some? && IsLine(p.filename.value + "\n") && HasNoReturns(p.filename.value + "\n")
    ensures IsClean(PixmapText(p))
  {
    hide EncodedLines, Concat, SplitLines;
    var name := p.filename.value + "\n";
    if p.embedded {
      var lines := EncodedLines(p.data, Some(COLUMNS), Some(DELIMITER));
      WrittenIsRead(p.data, Some(COLUMNS), Some(DELIMITER));
      forall l | l in lines
        ensures '\r' !in l
      {
        EncodedHasNoReturns(p.data, l);
      }
      ConcatIsClean(lines);
      CleanSum(name, Concat(lines));
    } else {
      assert name + "" == name;
    }
  }

  lemma EncodedHasNoReturns(data: seq<Byte>, l: string)
    requires l in EncodedLines(data, Some(COLUMNS), Some(DELIMITER))
    ensures '\r' !in l
  {
    var lines := Wrap(EncodeAll(data), Some(COLUMNS));
    if l in Terminate(lines) {
      var i :| 0 <= i < |lines| && l == Terminate(lines)[i];
      EncodingIsPure(data);
      WrapLengths(EncodeAll(data), Some(COLUMNS), i);
      assert !IsBase64('\r');
    }
  }

  lemma PayloadIsClean(d: Data<Symbol, Pixmap>, load: Loaders)
    requires IsWritable(d, load)
    ensures IsClean(Payload(d))
  {
    if d.PictureData? {
      PixmapIsClean(d.picture.pixmap);
    }
  }

  // File formats

  /** The letter with which the lines of an object start. */
  function Letter(d: Data<Symbol, Pixmap>): char {
    match d
    case ArcData(_) => 'A'
    case BoxData(_) => 'B'
    case CircleData(_) => 'V'
    case ComponentData(_) => 'C'
    case LineData(_) => 'L'
    case NetData(n) => if n.isPin then 'P' else if n.isBus then 'U' else 'N'
    case PathData(_) => 'H'
    case PictureData(_) => 'G'
    case TextData(_) => 'T'
  }

  lemma LetterIsFirst(d: Data<Symbol, Pixmap>, ripper: int)
    ensures FieldLine(Fields(d, ripper)) != "" && FieldLine(Fields(d, ripper))[0] == Letter(d)
  {
    hide LineFields, FillFields, FormatInt;
    var fields := Fields(d, ripper);
    assert fields[0] == Chr(Letter(d)) && FormatFields(fields)[0] == [Letter(d)];
  }

  /** Whether an object, the texts attached to it and the contents of its symbol
      look as they do in current files. */
  ghost predicate IsCurrentObject(f: FileFormat, o: Obj)
    decreases Height(o), 0
  {
    && IsCurrent(f, Letter(o.data))
    && (o.attached != [] ==> IsCurrent(f, 'T'))
    && (HasContents(o) && IsEmbedded(o) ==> AreCurrent(f, Inner(o)))
  }

  ghost predicate AreCurrent(f: FileFormat, objs: seq<Obj>)
    decreases HeightAll(objs), 1
  {
    forall i :: 0 <= i < |objs| ==> IsCurrentObject(f, objs[i])
  }

  lemma PlacedAreCurrent(f: FileFormat, objs: seq<Obj>, p: Placement)
    requires AngleIsValid(p.angle)
    ensures AreCurrent(f, PlaceAll(objs, p)) == AreCurrent(f, objs)
  {
    hide IsCurrent;
    forall i | 0 <= i < |objs|
      ensures IsCurrentObject(f, PlaceAll(objs, p)[i]) == IsCurrentObject(f, objs[i])
    {
      PlacedIsCurrent(f, objs[i], p);
    }
    assert forall i :: 0 <= i < |objs| ==> IsCurrentObject(f, PlaceAll(objs, p)[i]) == IsCurrentObject(f, objs[i]);
  }

  lemma PlacedIsCurrent(f: FileFormat, o: Obj, p: Placement)
    requires AngleIsValid(p.angle)
    ensures IsCurrentObject(f, PlaceObject(o, p)) == IsCurrentObject(f, o)
  {
    hide IsCurrent, AreCurrent, Place, Rotate, PlaceRect;
    assert Letter(Transform(o.data, p)) == Letter(o.data);
  }

  lemma RestIsCurrent(f: FileFormat, objs: seq<Obj>)
    requires objs != []
    ensures AreCurrent(f, objs) <==> IsCurrentObject(f, objs[0]) && AreCurrent(f, objs[1..])
  {
    hide IsCurrentObject;
    assert forall i :: 0 <= i < |objs[1..]| ==> objs[1..][i] == objs[i + 1];
    assert forall i :: 0 < i < |objs| ==> objs[i] == objs[1..][i - 1];
  }

  // Reading the lines of an object

  /** The format of the files which are written. */
  const CURRENT := FileFormat(RELEASE_VERSION, FILEFORMAT_VERSION)

  /** The state after an object without its symbol and attached texts. */
  function AfterData(st: State, d: Data<Symbol, Pixmap>): State {
    st.(objs := st.objs + [Obj(Shell(d), [])], last := LastObject)
  }

  lemma ShellIsStorable(d: Data<Symbol, Pixmap>)
    requires Storable(d)
    ensures Storable(Shell(d))
  {
  }

  lemma ReadNextItem(st: State, line: string, rest: seq<string>, load: Loaders)
    requires IsGood(st) && line != ""
    ensures ReadItems(st, [line] + rest, load) ==
      var s := ReadItem(st, line, rest, load);
      if s.Stop? then s.outcome else ReadItems(s.st, s.rest, load)
  {
    hide ReadItem, IsGood;
    assert ([line] + rest)[1..] == rest;
  }

  lemma DataReads(st: State, d: Data<Symbol, Pixmap>, ripper: int, rest: seq<string>, load: Loaders)
    requires IsGood(st) && IsCurrent(st.format, Letter(d))
    requires Storable(d) && Returns(d, ripper, load)
    ensures IsGood(AfterData(st, d))
    ensures ReadItems(st, [FieldLine(Fields(d, ripper))] + (SplitLines(Payload(d)) + rest), load) ==
      ReadItems(AfterData(st, d), rest, load)
  {
    hide SplitLines, Payload, Fields, FieldLine, ReadItems, ReadObject, Shell, Letter, IsCurrent;
    ShellIsStorable(d);
    LetterIsFirst(d, ripper);
    var line := FieldLine(Fields(d, ripper));
    ReadNextItem(st, line, SplitLines(Payload(d)) + rest, load);
  }

  // Attached texts

  ghost predicate AreCleanTexts(texts: seq<Text>) {
    forall i :: 0 <= i < |texts| ==> TextIsStored(texts[i]) && TextIsClean(texts[i].text)
  }

  lemma TextLines(t: Text, rest: string)
    requires TextIsStored(t) && TextIsClean(t.text)
    ensures
      var d: Data<Symbol, Pixmap> := TextData(t);
      && SplitLines(TextText(t) + rest) == [FieldLine(Fields(d, 0))] + (SplitLines(Payload(d)) + SplitLines(rest))
      && IsClean(TextText(t))
  {
    var d: Data<Symbol, Pixmap> := TextData(t);
    hide SplitLines, Fields, FieldLine;
    var line := FieldLine(Fields(d, 0));
    TextIsRead(t, []);
    IntegersReturn(Fields(d, 0), 9);
    LineIsClean(line);
    CleanSum(line, Payload(d));
    Associative(line, Payload(d), rest);
    SplitFirstLine(line, Payload(d) + rest);
    SplitComplete(Payload(d), rest);
  }

  lemma {:induction false} TextsRead(format: FileFormat, texts: seq<Text>, rest: seq<string>)
    requires AreCleanTexts(texts) && IsCurrent(format, 'T')
    ensures ReadAttached(format, SplitLines(TextsText(texts)) + (["}\n"] + rest)) == Attached(texts, rest, 0)
    ensures IsClean(TextsText(texts))
  {
    hide SplitLines, TextText, ReadAttached, IsClean, IsCurrent;
    var end := ["}\n"] + rest;
    if texts == [] {
      SplitNothing();
      assert [] + end == end;
      EndOfAttached(format, rest);
      NothingIsClean();
    } else {
      var others := TextsText(texts[1..]);
      var lines := SplitLines(others) + end;
      TextsRead(format, texts[1..], rest);
      TextLines(texts[0], others);
      CleanSum(TextText(texts[0]), others);
      FirstTextReads(format, texts[0], lines);
      var d: Data<Symbol, Pixmap> := TextData(texts[0]);
      var line := [FieldLine(Fields(d, 0))];
      Associative(line, SplitLines(Payload(d)) + SplitLines(others), end);
      Associative(SplitLines(Payload(d)), SplitLines(others), end);
      assert texts == [texts[0]] + texts[1..];
    }
  }

  lemma SplitClean(a: string, b: string)
    requires IsClean(a)
    ensures SplitLines(a + b) == SplitLines(a) + SplitLines(b)
  {
    SplitComplete(a, b);
  }

  lemma NothingIsClean()
    ensures IsClean("")
  {
  }

  lemma EndOfAttached(format: FileFormat, rest: seq<string>)
    ensures ReadAttached(format, ["}\n"] + rest) == Attached([], rest, 0)
  {
    assert (["}\n"] + rest)[1..] == rest;
  }

  lemma FirstTextReads(format: FileFormat, t: Text, lines: seq<string>)
    requires TextIsStored(t) && TextIsClean(t.text) && IsCurrent(format, 'T')
    ensures
      var d: Data<Symbol, Pixmap> := TextData(t);
      ReadAttached(format, [FieldLine(Fields(d, 0))] + (SplitLines(Payload(d)) + lines)) ==
        PutFirst(t, 0, ReadAttached(format, lines))
  {
    hide SplitLines, Fields, FieldLine, ReadText, Payload, IsCurrent;
    var d: Data<Symbol, Pixmap> := TextData(t);
    var line := FieldLine(Fields(d, 0));
    TextIsRead(t, lines);
    IntegersReturn(Fields(d, 0), 9);
    var rest := SplitLines(Payload(d)) + lines;
    assert ([line] + rest)[1..] == rest;
  }

  /** The state after texts have been attached to the last object. */
  function AfterAttached(st: State, texts: seq<Text>): State
    requires st.objs != []
  {
    var n := |st.objs| - 1;
    if texts == [] then st
    else st.(objs := st.objs[n := AttachTo(st.objs[n], texts)], last := Nothing)
  }

  lemma AttachedReads(st: State, texts: seq<Text>, rest: seq<string>, load: Loaders)
    requires IsGood(st) && (texts != [] ==> IsCurrent(st.format, 'T')) && st.last.LastObject?
    requires texts != [] ==> CanHaveChildren(st.objs[|st.objs| - 1].data)
    requires AreCleanTexts(texts)
    ensures IsGood(AfterAttached(st, texts)) && IsClean(AttachedText(texts))
    ensures ReadItems(st, SplitLines(AttachedText(texts)) + rest, load) ==
      ReadItems(AfterAttached(st, texts), rest, load)
  {
    hide SplitLines, TextsText, ReadAttached, IsClean, ReadItems, IsCurrent;
    if texts == [] {
      SplitNothing();
      NothingIsClean();
      assert [] + rest == rest;
    } else {
      AttachedLines(st.format, texts);
      TextsRead(st.format, texts, rest);
      var lines := SplitLines(TextsText(texts)) + (["}\n"] + rest);
      Associative(["{\n"], SplitLines(TextsText(texts)) + ["}\n"], rest);
      Associative(SplitLines(TextsText(texts)), ["}\n"], rest);
      ReadNextItem(st, "{\n", lines, load);
    }
  }

  lemma AttachedLines(format: FileFormat, texts: seq<Text>)
    requires AreCleanTexts(texts) && texts != [] && IsCurrent(format, 'T')
    ensures SplitLines(AttachedText(texts)) == ["{\n"] + (SplitLines(TextsText(texts)) + ["}\n"])
    ensures IsClean(AttachedText(texts))
  {
    hide ReadAttached, TextsText, AreCleanTexts, IsCurrent, SplitLines, HasNoReturns, IsComplete;
    TextsRead(format, texts, []);
    BracketLines("{\n", TextsText(texts), "}\n");
  }

  /** A bracket on a line of its own, some text, and another bracket. */
  lemma BracketLines(open: string, s: string, close: string)
    requires IsLine(open) && IsLine(close) && '\r' !in open && '\r' !in close && IsClean(s)
    ensures SplitLines(open + s + close) == [open] + (SplitLines(s) + [close])
    ensures IsClean(open + s + close)
  {
    hide SplitLines;
    LineIsClean(open);
    LineIsClean(close);
    CleanSum(open, s);
    CleanSum(open + s, close);
    Associative(open, s, close);
    SplitFirstLine(open, s + close);
    SplitComplete(s, close);
    SplitFirstLine(close, "");
    SplitNothing();
    assert close + "" == close;
  }

  // Whole objects

  /** An object as it has been read, before symbols are put back to their
      original places. */
  function Raw(o: Obj): (r: Obj)
    requires IsStored(o)
    ensures DataIsValid(r.data) && r.attached == o.attached
    ensures CanHaveChildren(r.data) == CanHaveChildren(o.data)
    decreases Height(o), 0
  {
    if IsEmbedded(o) then FillSymbol(o, if HasContents(o) then RawAll(PlacedContents(o)) else []) else o
  }

  function RawAll(objs: seq<Obj>): (r: seq<Obj>)
    requires AreStored(objs)
    ensures |r| == |objs| && forall i :: 0 <= i < |r| ==> r[i] == Raw(objs[i])
    ensures AreValid(r)
    decreases HeightAll(objs), 1, |objs|
  {
    if objs == [] then []
    else
      RestIsStored(objs);
      [Raw(objs[0])] + RawAll(objs[1..])
  }

  lemma RestIsStored(objs: seq<Obj>)
    requires AreStored(objs) && objs != []
    ensures AreStored(objs[1..]) && IsStored(objs[0])
    ensures HeightAll(objs[1..]) <= HeightAll(objs)
  {
    assert forall i :: 0 <= i < |objs[1..]| ==> objs[1..][i] == objs[i + 1];
  }

  lemma RestIsWritable(objs: seq<Obj>, load: Loaders)
    requires AreWritable(objs, load) && objs != []
    ensures AreWritable(objs[1..], load) && IsWritableObject(objs[0], load)
  {
    assert forall i :: 0 <= i < |objs[1..]| ==> objs[1..][i] == objs[i + 1];
  }

  /** The state after an object and everything that belongs to it. */
  function After(st: State, o: Obj): State
    requires IsStored(o)
  {
    st.(objs := st.objs + [Raw(o)], last := if o.attached == [] then LastObject else Nothing)
  }

  function AfterAll(st: State, objs: seq<Obj>): State
    requires AreStored(objs)
    decreases |objs|
  {
    if objs == [] then st
    else
      RestIsStored(objs);
      AfterAll(After(st, objs[0]), objs[1..])
  }

  lemma AfterIsGood(st: State, o: Obj)
    requires IsGood(st) && IsStored(o)
    ensures IsGood(After(st, o))
  {
    hide Raw;
  }

  lemma {:induction false} AfterAllAppends(st: State, objs: seq<Obj>)
    requires IsGood(st) && AreStored(objs)
    ensures IsGood(AfterAll(st, objs))
    ensures
      var t := AfterAll(st, objs);
      && t.objs == st.objs + RawAll(objs)
      && t.stack == st.stack && t.format == st.format && t.errors == st.errors
    decreases |objs|
  {
    hide Raw, IsGood;
    if objs == [] {
      assert st.objs + [] == st.objs;
    } else {
      RestIsStored(objs);
      AfterIsGood(st, objs[0]);
      AfterAllAppends(After(st, objs[0]), objs[1..]);
      Associative(st.objs, [Raw(objs[0])], RawAll(objs[1..]));
    }
  }

  /** The object which has been read last, with its symbol. */
  function AfterSymbol(st: State, o: Obj): State
    requires IsStored(o)
  {
    st.(objs := st.objs + [Obj(Raw(o).data, [])], last := LastObject)
  }

  /** The lines of the symbol of an embedded component. */
  lemma SymbolReads(st: State, o: Obj, ripper: RipperDirection, rest: seq<string>, load: Loaders)
    requires IsGood(st) && IsCurrentObject(st.format, o)
    requires IsStored(o) && IsWritableObject(o, load)
    ensures IsGood(AfterData(st, o.data)) && IsGood(AfterSymbol(st, o)) && IsClean(EmbeddedText(o, ripper))
    ensures ReadItems(AfterData(st, o.data), SplitLines(EmbeddedText(o, ripper)) + rest, load) ==
      ReadItems(AfterSymbol(st, o), rest, load)
    decreases Height(o), 0, 1
  {
    hide SplitLines, ReadItems, IsClean, IsStored, Raw, ContentsText, AfterAll;
    AfterDataIsGood(st, o);
    if !IsEmbedded(o) {
      NoSymbol(st, o);
      SplitNothing();
      NothingIsClean();
      assert [] + rest == rest;
    } else {
      var placed := if HasContents(o) then PlacedContents(o) else [];
      var s := ContentsText(o, ripper);
      var end := ["]\n"] + rest;
      var inside := st.(objs := [], last := Outside, stack := st.stack + [AfterData(st, o.data).objs]);
      SymbolStarts(st, o, inside, SplitLines(s) + end, load);
      ContentsRead(inside, o, ripper, end, load);
      BracketLines("[\n", s, "]\n");
      Associative(["[\n"], SplitLines(s) + ["]\n"], rest);
      Associative(SplitLines(s), ["]\n"], rest);
      SymbolEnds(st, o, inside, placed, rest, load);
    }
  }

  lemma AfterDataIsGood(st: State, o: Obj)
    requires IsGood(st) && IsStored(o)
    ensures IsGood(AfterData(st, o.data)) && IsGood(AfterSymbol(st, o))
  {
    hide Raw;
    ShellIsStorable(o.data);
  }

  lemma NoSymbol(st: State, o: Obj)
    requires IsStored(o) && !IsEmbedded(o)
    ensures AfterSymbol(st, o) == AfterData(st, o.data)
  {
  }

  lemma SymbolStarts(st: State, o: Obj, inside: State, lines: seq<string>, load: Loaders)
    requires IsGood(st) && IsStored(o) && IsEmbedded(o) && IsGood(AfterData(st, o.data))
    requires inside == st.(objs := [], last := Outside, stack := st.stack + [AfterData(st, o.data).objs])
    ensures IsGood(inside)
    ensures ReadItems(AfterData(st, o.data), ["[\n"] + lines, load) == ReadItems(inside, lines, load)
  {
    hide ReadItems;
    ReadNextItem(AfterData(st, o.data), "[\n", lines, load);
  }

  lemma ContentsRead(st: State, o: Obj, ripper: RipperDirection, rest: seq<string>, load: Loaders)
    requires IsGood(st) && IsCurrentObject(st.format, o) && st.objs == []
    requires IsStored(o) && IsWritableObject(o, load) && IsEmbedded(o)
    ensures
      var placed := if HasContents(o) then PlacedContents(o) else [];
      && IsClean(ContentsText(o, ripper))
      && ReadItems(st, SplitLines(ContentsText(o, ripper)) + rest, load) ==
           (AfterAllAppends(st, placed); ReadItems(AfterAll(st, placed), rest, load))
    decreases Height(o), 0, 0
  {
    hide SplitLines, ReadItems, IsClean;
    if HasContents(o) {
      var placed := PlacedContents(o);
      PlacedAreWritable(Inner(o), PlacementOf(o.data.component), load);
      PlacedAreCurrent(st.format, Inner(o), PlacementOf(o.data.component));
      ObjectsRead(st, placed, placed, ripper, rest, load);
    } else {
      SplitNothing();
      NothingIsClean();
      assert [] + rest == rest;
    }
  }

  /** At the end of the symbol, the objects which have been read are put into
      the symbol. */
  lemma SymbolEnds(st: State, o: Obj, inside: State, placed: seq<Obj>, rest: seq<string>, load: Loaders)
    requires IsGood(st) && IsStored(o) && IsEmbedded(o)
    requires inside == st.(objs := [], last := Outside, stack := st.stack + [AfterData(st, o.data).objs])
    requires placed == if HasContents(o) then PlacedContents(o) else []
    requires IsGood(inside)
    ensures IsGood(AfterAll(inside, placed)) && IsGood(AfterSymbol(st, o))
    ensures ReadItems(AfterAll(inside, placed), ["]\n"] + rest, load) == ReadItems(AfterSymbol(st, o), rest, load)
  {
    hide ReadItems, AfterAll, RawAll;
    AfterAllAppends(inside, placed);
    var t := AfterAll(inside, placed);
    ReadNextItem(t, "]\n", rest, load);
    assert [] + RawAll(placed) == RawAll(placed);
    var outer := AfterData(st, o.data).objs;
    assert t.stack[..|t.stack| - 1] == st.stack;
    assert outer[|outer| - 1 := FillSymbol(outer[|outer| - 1], t.objs)] == AfterSymbol(st, o).objs;
  }

  /** The lines of an object. */
  lemma ObjectLines(rev: seq<Obj>, o: Obj, ripper: RipperDirection, r: int, load: Loaders)
    requires IsStored(o) && IsWritable(o.data, load) && AreCleanTexts(o.attached)
    requires r == if o.data.NetData? then ripper(rev, o.data.net) else 0
    requires IsClean(EmbeddedText(o, ripper)) && IsClean(AttachedText(o.attached))
    requires Returns(o.data, r, load)
    ensures IsClean(ObjectText(rev, o, ripper))
    ensures SplitLines(ObjectText(rev, o, ripper)) ==
      [FieldLine(Fields(o.data, r))]
      + (SplitLines(Payload(o.data)) + (SplitLines(EmbeddedText(o, ripper)) + SplitLines(AttachedText(o.attached))))
  {
    hide SplitLines, EmbeddedText, AttachedText, Payload, Fields, FieldLine, IsWritable, ReadObject;
    var line, p, e, a := FieldLine(Fields(o.data, r)), Payload(o.data), EmbeddedText(o, ripper), AttachedText(o.attached);
    PayloadIsClean(o.data, load);
    LineIsClean(line);
    CleanSum(line, p);
    CleanSum(line + p, e);
    CleanSum(line + p + e, a);
    SplitClean(line + p + e, a);
    SplitClean(line + p, e);
    SplitFirstLine(line, p);
    Associative([line], SplitLines(p), SplitLines(e));
    Associative([line], SplitLines(p) + SplitLines(e), SplitLines(a));
    Associative(SplitLines(p), SplitLines(e), SplitLines(a));
  }

  /** Reading the lines of an object appends it. */
  lemma ObjectReads(st: State, rev: seq<Obj>, o: Obj, ripper: RipperDirection, rest: seq<string>, load: Loaders)
    requires IsGood(st) && IsCurrentObject(st.format, o)
    requires IsStored(o) && IsWritableObject(o, load)
    ensures IsGood(After(st, o)) && IsClean(ObjectText(rev, o, ripper))
    ensures ReadItems(st, SplitLines(ObjectText(rev, o, ripper)) + rest, load) == ReadItems(After(st, o), rest, load)
    decreases Height(o), 1
  {
    hide SplitLines, ReadItems, IsClean, EmbeddedText, AttachedText, Payload, Fields, FieldLine, IsWritable, Raw, Returns;
    var r := if o.data.NetData? then ripper(rev, o.data.net) else 0;
    var p, e, a := SplitLines(Payload(o.data)), SplitLines(EmbeddedText(o, ripper)), SplitLines(AttachedText(o.attached));
    DataReturns(o.data, r, load);
    SymbolReads(st, o, ripper, a + rest, load);
    AttachedReads(AfterSymbol(st, o), o.attached, rest, load);
    ObjectLines(rev, o, ripper, r, load);
    DataReads(st, o.data, r, e + (a + rest), load);
    var line := [FieldLine(Fields(o.data, r))];
    Associative(line, p + (e + a), rest);
    Associative(p, e + a, rest);
    Associative(e, a, rest);
    AfterIsGood(st, o);
    AttachedIsAfter(st, o);
  }

  lemma AttachedIsAfter(st: State, o: Obj)
    requires IsStored(o)
    ensures AfterAttached(AfterSymbol(st, o), o.attached) == After(st, o)
  {
    hide Raw, IsStored;
    var s := AfterSymbol(st, o);
    var n := |st.objs|;
    if o.attached == [] {
      assert Obj(Raw(o).data, []) == Raw(o);
    } else {
      assert [] + o.attached == o.attached;
      assert AttachTo(s.objs[n], o.attached) == Raw(o);
      assert s.objs[n := Raw(o)] == st.objs + [Raw(o)];
    }
  }

  lemma ObjectsRead(st: State, rev: seq<Obj>, objs: seq<Obj>, ripper: RipperDirection, rest: seq<string>, load: Loaders)
    requires IsGood(st) && AreCurrent(st.format, objs)
    requires AreStored(objs) && AreWritable(objs, load)
    ensures IsGood(AfterAll(st, objs)) && IsClean(ObjectsText(rev, objs, ripper))
    ensures ReadItems(st, SplitLines(ObjectsText(rev, objs, ripper)) + rest, load) ==
      ReadItems(AfterAll(st, objs), rest, load)
    decreases HeightAll(objs), 2, |objs|
  {
    hide SplitLines, ReadItems, IsClean, ObjectText, Raw, IsStored, IsWritableObject, IsCurrentObject;
    AfterAllAppends(st, objs);
    if objs == [] {
      SplitNothing();
      NothingIsClean();
      assert [] + rest == rest;
    } else {
      RestIsStored(objs);
      RestIsWritable(objs, load);
      RestIsCurrent(st.format, objs);
      AfterIsGood(st, objs[0]);
      var first, others := ObjectText(rev, objs[0], ripper), ObjectsText(rev, objs[1..], ripper);
      ObjectsRead(After(st, objs[0]), rev, objs[1..], ripper, rest, load);
      ObjectReads(st, rev, objs[0], ripper, SplitLines(others) + rest, load);
      CleanSum(first, others);
      SplitClean(first, others);
      Associative(SplitLines(first), SplitLines(others), rest);
    }
  }
}
