/** How much there is in a file, measured such that reading doesn't add to it:
    carriage returns count, and so do empty lines. */
module PlainWeights {
  import opened Wrappers
  import opened Sequences
  import opened ObjectData
  import opened Decimals
  import opened PlainFormat
  import opened PlainText
  import opened PlainLines
  import opened Streams
  import opened Base64
  import opened Base64RoundTrip
  import opened Drawings
  import opened PlainWrite
  import opened PlainRead
  import opened PlainObjects
  import opened PlainReturn

  // Lines

  function CountReturns(s: string): nat {
    if s == "" then 0 else (if s[0] == '\r' then 1 else 0) + CountReturns(s[1..])
  }

  /** Whether a line is read as a path which doesn't have any lines.  If it is
      written again, it has an empty one. */
  predicate IsEmptyPath(line: string) {
    var r := Sscanf(line, [C] + Ints(13));
    line != "" && line[0] == 'H' && r.Some? && r.value[13].n <= 0
  }

  /** A carriage return weighs more than an empty line, so removing one always
      makes a line lighter. */
  function Weight(line: string): nat {
    2 * CountReturns(line) + if line == "\n" || IsEmptyPath(line) then 1 else 0
  }

  function LinesWeight(lines: seq<string>): nat {
    if lines == [] then 0 else Weight(lines[0]) + LinesWeight(lines[1..])
  }

  function TextWeight(s: string): nat {
    LinesWeight(SplitLines(s))
  }

  /** The weight of what the reader gets to see. */
  function StrippedWeight(s: string): nat {
    LinesWeight(StripReturns(SplitLines(s)))
  }

  lemma {:induction false} LinesWeightSplits(a: seq<string>, b: seq<string>)
    ensures LinesWeight(a + b) == LinesWeight(a) + LinesWeight(b)
  {
    hide Weight;
    if a == [] {
      assert a + b == b;
    } else {
      LinesWeightSplits(a[1..], b);
      assert (a + b)[1..] == a[1..] + b;
    }
  }

  lemma StripReturnsSplits(a: seq<string>, b: seq<string>)
    ensures StripReturns(a + b) == StripReturns(a) + StripReturns(b)
  {
  }

  lemma StrippedSum(a: string, b: string)
    requires IsComplete(a)
    ensures StrippedWeight(a + b) == StrippedWeight(a) + StrippedWeight(b)
  {
    hide LinesWeight, StripReturns, SplitLines;
    SplitComplete(a, b);
    StripReturnsSplits(SplitLines(a), SplitLines(b));
    LinesWeightSplits(StripReturns(SplitLines(a)), StripReturns(SplitLines(b)));
  }

  lemma TextSum(a: string, b: string)
    requires IsComplete(a)
    ensures TextWeight(a + b) == TextWeight(a) + TextWeight(b)
  {
    hide LinesWeight, SplitLines;
    SplitComplete(a, b);
    LinesWeightSplits(SplitLines(a), SplitLines(b));
  }

  lemma CompleteSum(a: string, b: string)
    requires IsComplete(a) && IsComplete(b)
    ensures IsComplete(a + b)
  {
  }

  lemma {:induction false} CountReturnsSplits(a: string, b: string)
    ensures CountReturns(a + b) == CountReturns(a) + CountReturns(b)
  {
    if a == "" {
      assert a + b == b;
    } else {
      CountReturnsSplits(a[1..], b);
      assert (a + b)[1..] == a[1..] + b;
    }
  }

  lemma {:induction false} NoReturns(s: string)
    requires '\r' !in s
    ensures CountReturns(s) == 0
  {
    if s != "" {
      NoReturns(s[1..]);
    }
  }

  lemma OneLine(line: string)
    requires IsLine(line)
    ensures SplitLines(line) == [line] && StripReturns([line]) == [StripReturn(line)]
    ensures TextWeight(line) == Weight(line) && StrippedWeight(line) == Weight(StripReturn(line))
  {
    hide SplitLines, Weight;
    SplitFirstLine(line, "");
    SplitNothing();
    assert line + "" == line;
    assert StripReturns([line]) == [StripReturn(line)];
    LineAlone(line);
    LineAlone(StripReturn(line));
  }

  lemma LineAlone(line: string)
    ensures LinesWeight([line]) == Weight(line)
  {
    hide Weight;
    assert [line][1..] == [];
  }

  lemma LineIsLighter(line: string)
    requires IsLine(line)
    ensures Weight(StripReturn(line)) <= Weight(line)
    ensures Weight(StripReturn(line)) == Weight(line) ==> HasNoReturns(line)
  {
    hide IsEmptyPath, CountReturns;
    var s := StripReturn(line);
    if s != line {
      var n := |line| - 2;
      CountReturnsSplits(line[..n], "\n");
      CountReturnsSplits(line[..n], "\r\n");
      assert line == line[..n] + "\r\n";
      CountLineEnds();
    }
  }

  lemma CountLineEnds()
    ensures CountReturns("\n") == 0 && CountReturns("\r\n") == 1
  {
    assert "\r\n"[1..] == "\n";
  }

  /** Removing carriage returns makes a text lighter, unless there are none. */
  lemma {:induction false} StripIsLighter(s: string)
    requires IsComplete(s)
    ensures StrippedWeight(s) <= TextWeight(s)
    ensures StrippedWeight(s) == TextWeight(s) ==> HasNoReturns(s)
    decreases |s|
  {
    hide IsComplete, StrippedWeight, TextWeight, IsLine, Weight, HasNoReturns;
    if s == "" {
      NothingHasWeight();
    } else {
      var n := LineEnd(s);
      FirstLine(s);
      StripIsLighter(s[n..]);
      assert s == s[..n] + s[n..];
      OneLine(s[..n]);
      LineIsLighter(s[..n]);
      LineIsComplete(s[..n]);
      StrippedSum(s[..n], s[n..]);
      TextSum(s[..n], s[n..]);
      if HasNoReturns(s[..n]) && HasNoReturns(s[n..]) {
        NoReturnsSum(s[..n], s[n..]);
      }
    }
  }

  lemma NothingHasWeight()
    ensures StrippedWeight("") == 0 == TextWeight("") && HasNoReturns("") && IsComplete("")
  {
  }

  lemma LineIsComplete(line: string)
    requires IsLine(line)
    ensures IsComplete(line)
  {
  }

  lemma NoReturnsSum(a: string, b: string)
    requires IsLine(a) && HasNoReturns(a) && HasNoReturns(b)
    ensures HasNoReturns(a + b)
  {
    assert a[|a| - 1] == '\n';
  }

  /** Most lines which aren't part of a text have no weight. */
  lemma NoWeight(line: string)
    requires IsLine(line) && '\r' !in line && line != "\n" && !IsEmptyPath(line)
    ensures StrippedWeight(line) == 0 == Weight(line) && IsComplete(line)
  {
    OneLine(line);
    NoReturns(line);
  }

  // Objects

  function NameWeight(filename: Option<string>): nat {
    Weight((if filename.Some? then filename.value else "") + "\n")
  }

  function DataWeight(d: Data<Symbol, Pixmap>): nat {
    match d
    case TextData(t) => TextWeight(t.text + "\n")
    case PathData(p) => TextWeight(p.pathdata + "\n")
    case PictureData(i) => NameWeight(i.pixmap.filename)
    case _ => 0
  }

  function TextsWeight(texts: seq<Text>): nat {
    if texts == [] then 0 else TextWeight(texts[0].text + "\n") + TextsWeight(texts[1..])
  }

  /** The weight of everything that belongs to an object. */
  function ObjectWeight(o: Obj): nat
    decreases Height(o), 0
  {
    DataWeight(o.data) + TextsWeight(o.attached) +
    if IsEmbedded(o) && HasContents(o) then ObjectsWeight(Inner(o)) else 0
  }

  function ObjectsWeight(objs: seq<Obj>): nat
    decreases HeightAll(objs), 1, |objs|
  {
    if objs == [] then 0
    else
      HeightOfRest(objs);
      ObjectWeight(objs[0]) + ObjectsWeight(objs[1..])
  }

  lemma HeightOfRest(objs: seq<Obj>)
    requires objs != []
    ensures HeightAll(objs[1..]) <= HeightAll(objs) && Height(objs[0]) <= HeightAll(objs)
  {
  }

  lemma {:induction false} ObjectsWeightSplits(a: seq<Obj>, b: seq<Obj>)
    ensures ObjectsWeight(a + b) == ObjectsWeight(a) + ObjectsWeight(b)
    decreases |a|
  {
    hide ObjectWeight;
    if a == [] {
      assert a + b == b;
    } else {
      ObjectsWeightSplits(a[1..], b);
      assert (a + b)[1..] == a[1..] + b && (a + b)[0] == a[0];
    }
  }

  lemma OneObject(o: Obj)
    ensures ObjectsWeight([o]) == ObjectWeight(o)
  {
    hide ObjectWeight;
    assert [o][1..] == [];
  }

  lemma {:induction false} SameWeights(a: seq<Obj>, b: seq<Obj>)
    requires |a| == |b| && forall i :: 0 <= i < |a| ==> ObjectWeight(a[i]) == ObjectWeight(b[i])
    ensures ObjectsWeight(a) == ObjectsWeight(b)
    decreases |a|
  {
    hide ObjectWeight;
    if a != [] {
      assert forall i :: 0 <= i < |a[1..]| ==> a[1..][i] == a[i + 1] && b[1..][i] == b[i + 1];
      SameWeights(a[1..], b[1..]);
    }
  }

  lemma {:induction false} SameTextWeights(a: seq<Text>, b: seq<Text>)
    requires |a| == |b| && forall i :: 0 <= i < |a| ==> a[i].text == b[i].text
    ensures TextsWeight(a) == TextsWeight(b)
  {
    hide TextWeight;
    if a != [] {
      assert forall i :: 0 <= i < |a[1..]| ==> a[1..][i] == a[i + 1] && b[1..][i] == b[i + 1];
      SameTextWeights(a[1..], b[1..]);
    }
  }

  lemma {:induction false} TextsWeightSplits(a: seq<Text>, b: seq<Text>)
    ensures TextsWeight(a + b) == TextsWeight(a) + TextsWeight(b)
  {
    hide TextWeight;
    if a == [] {
      assert a + b == b;
    } else {
      TextsWeightSplits(a[1..], b);
      assert (a + b)[1..] == a[1..] + b && (a + b)[0] == a[0];
    }
  }

  /** Placing an object doesn't change its weight. */
  lemma PlacedWeight(o: Obj, p: Placement)
    requires AngleIsValid(p.angle)
    ensures ObjectWeight(PlaceObject(o, p)) == ObjectWeight(o)
  {
    hide TextWeight, NameWeight, ObjectsWeight, TextsWeight;
    SameTextWeights(PlaceObject(o, p).attached, o.attached);
  }

  lemma PlacedWeights(objs: seq<Obj>, p: Placement)
    requires AngleIsValid(p.angle)
    ensures ObjectsWeight(PlaceAll(objs, p)) == ObjectsWeight(objs)
  {
    hide ObjectsWeight, ObjectWeight, PlaceObject;
    forall i | 0 <= i < |objs|
      ensures ObjectWeight(PlaceAll(objs, p)[i]) == ObjectWeight(objs[i])
    {
      PlacedWeight(objs[i], p);
    }
    SameWeights(PlaceAll(objs, p), objs);
  }

  // Names

  /** Whether the names in an object are such as can be read from a file. */
  ghost predicate HasGoodNames(d: Data<Symbol, Pixmap>, load: Loaders) {
    match d
    case ComponentData(_) => IsWritable(d, load)
    case PictureData(i) =>
      && (i.pixmap.filename.Some? ==> i.pixmap.filename.value != "" && '\n' !in i.pixmap.filename.value)
      && (!i.pixmap.embedded ==> load.pixmap(i.pixmap.filename) == i.pixmap)
    case _ => true
  }

  ghost predicate IsNamed(o: Obj, load: Loaders)
    decreases Height(o), 0
  {
    HasGoodNames(o.data, load) && (HasContents(o) && IsEmbedded(o) ==> AreNamed(Inner(o), load))
  }

  ghost predicate AreNamed(objs: seq<Obj>, load: Loaders)
    decreases HeightAll(objs), 1
  {
    forall i :: 0 <= i < |objs| ==> IsNamed(objs[i], load)
  }

  lemma PlacedAreNamed(objs: seq<Obj>, p: Placement, load: Loaders)
    requires AngleIsValid(p.angle) && AreNamed(objs, load)
    ensures AreNamed(PlaceAll(objs, p), load)
  {
    forall i | 0 <= i < |objs|
      ensures IsNamed(PlaceAll(objs, p)[i], load)
    {
      assert IsNamed(objs[i], load);
      PlacedIsNamed(objs[i], p, load);
    }
  }

  lemma PlacedIsNamed(o: Obj, p: Placement, load: Loaders)
    requires AngleIsValid(p.angle) && IsNamed(o, load)
    ensures IsNamed(PlaceObject(o, p), load)
  {
    var r := PlaceObject(o, p);
    assert HasGoodNames(Transform(o.data, p), load);
  }

  // What is written

  lemma TextPayload(s: string)
    ensures IsComplete(s + "\n")
    ensures StrippedWeight(s + "\n") <= TextWeight(s + "\n")
    ensures StrippedWeight(s + "\n") == TextWeight(s + "\n") ==> TextIsClean(s)
  {
    hide StrippedWeight, TextWeight;
    StripIsLighter(s + "\n");
  }

  lemma {:induction false} EncodedHaveNoWeight(lines: seq<string>)
    requires forall l :: l in lines ==> IsLine(l) && '\r' !in l && l != "\n" && !IsEmptyPath(l)
    ensures StrippedWeight(Concat(lines)) == 0 && IsComplete(Concat(lines))
  {
    hide StrippedWeight, IsEmptyPath, IsLine;
    if lines == [] {
      NothingHasWeight();
    } else {
      assert lines[0] in lines && forall l :: l in lines[1..] ==> l in lines;
      EncodedHaveNoWeight(lines[1..]);
      NoWeight(lines[0]);
      StrippedSum(lines[0], Concat(lines[1..]));
      CompleteSum(lines[0], Concat(lines[1..]));
    }
  }

  lemma EncodedLine(data: seq<Byte>, l: string)
    requires l in EncodedLines(data, Some(COLUMNS), Some(DELIMITER))
    ensures l != "\n" && !IsEmptyPath(l)
  {
    var lines := Wrap(EncodeAll(data), Some(COLUMNS));
    if l in Terminate(lines) {
      var i :| 0 <= i < |lines| && l == Terminate(lines)[i];
      WrapLengths(EncodeAll(data), Some(COLUMNS), i);
      EncodingIsPure(data);
      hide EncodeAll, Wrap, Sscanf;
      assert IsPure(lines[i]);
      PureIsOneWord(lines[i]);
    }
  }

  lemma PureIsOneWord(s: string)
    requires IsPure(s) && s != ""
    ensures s + "\n" != "\n" && !IsEmptyPath(s + "\n")
  {
    forall c | c in s
      ensures !IsSpace(c)
    {
      assert IsBase64(c) || c == '=';
    }
    hide Split, IsSpace, ParseFields;
    assert (s + "\n")[..|s + "\n"| - 1] == s;
    assert s + "" == s;
    SplitWord(s, "");
    SplitNone();
  }

  lemma SplitNone()
    ensures Split("") == []
  {
  }

  lemma PixmapIsHeavy(p: Pixmap, load: Loaders)
    requires p.filename.Some? ==> p.filename.value != "" && '\n' !in p.filename.value
    ensures IsComplete(PixmapText(p)) && StrippedWeight(PixmapText(p)) <= NameWeight(p.filename)
    ensures StrippedWeight(PixmapText(p)) == NameWeight(p.filename) ==>
      p.filename.Some? && HasNoReturns(p.filename.value + "\n")
  {
    hide StrippedWeight, Weight, Concat, EncodedLines, HasNoReturns;
    var line := FileName(p) + "\n";
    var data := if p.embedded then Concat(EncodedLines(p.data, Some(COLUMNS), Some(DELIMITER))) else "";
    PixmapDataHaveNoWeight(p);
    StrippedSum(line, data);
    CompleteSum(line, data);
    OneLine(line);
    if p.filename.Some? {
      LineIsLighter(line);
    } else {
      NoneIsLight();
      assert line == "None\n";
    }
  }

  lemma NoneIsLight()
    ensures Weight("None\n") == 0 && StripReturn("None\n") == "None\n" && Weight("\n") == 1 && "" + "\n" == "\n"
  {
    NoReturns("None\n");
    NoReturns("\n");
    hide Sscanf;
  }

  lemma PixmapDataHaveNoWeight(p: Pixmap)
    ensures
      var data := if p.embedded then Concat(EncodedLines(p.data, Some(COLUMNS), Some(DELIMITER))) else "";
      StrippedWeight(data) == 0 && IsComplete(data)
  {
    hide EncodedLines, Concat, StrippedWeight, Sscanf;
    if p.embedded {
      var lines := EncodedLines(p.data, Some(COLUMNS), Some(DELIMITER));
      WrittenIsRead(p.data, Some(COLUMNS), Some(DELIMITER));
      forall l | l in lines
        ensures '\r' !in l && l != "\n" && !IsEmptyPath(l)
      {
        EncodedHasNoReturns(p.data, l);
        EncodedLine(p.data, l);
      }
      EncodedHaveNoWeight(lines);
    } else {
      NothingHasWeight();
    }
  }

  /** The first line of an object has no weight. */
  lemma FirstLineIsLight(d: Data<Symbol, Pixmap>, ripper: int, load: Loaders)
    requires Storable(d) && HasGoodNames(d, load) && (!d.NetData? ==> ripper == 0)
    ensures
      var line := FieldLine(Fields(d, ripper));
      StrippedWeight(line) == 0 && IsComplete(line) && IsLine(line)
  {
    hide FieldLine, StrippedWeight, IsWritable;
    var line := FieldLine(Fields(d, ripper));
    if d.PathData? {
      PathLineIsLight(d);
    } else {
      OtherLineIsLight(d, ripper, load);
    }
    NoWeight(line);
  }

  lemma PathLineIsLight(d: Data<Symbol, Pixmap>)
    requires Storable(d) && d.PathData?
    ensures
      var line := FieldLine(Fields(d, 0));
      IsLine(line) && '\r' !in line && line != "\n" && !IsEmptyPath(line)
  {
    hide FieldLine, Sscanf, LineFields, FillFields;
    LineFieldsReturn(d.path.line);
    FillFieldsReturn(d.path.fill);
    IntegersReturn(Fields(d, 0), 13);
  }

  lemma OtherLineIsLight(d: Data<Symbol, Pixmap>, ripper: int, load: Loaders)
    requires Storable(d) && HasGoodNames(d, load) && (!d.NetData? ==> ripper == 0) && !d.PathData?
    ensures
      var line := FieldLine(Fields(d, ripper));
      IsLine(line) && '\r' !in line && line != "\n" && !IsEmptyPath(line)
  {
    hide FieldLine, Sscanf, SplitLines, ReadObject;
    if d.TextData? {
      IntegersReturn(Fields(d, 0), 9);
    } else if d.PictureData? {
      IntegersReturn(Fields(d, 0), 7);
    } else {
      DataReturns(d, ripper, load);
      LetterOf(d, ripper);
      assert !IsObjectType('\n');
    }
  }

  lemma LetterOf(d: Data<Symbol, Pixmap>, ripper: int)
    ensures FieldLine(Fields(d, ripper)) != "" && !d.PathData? ==> FieldLine(Fields(d, ripper))[0] != 'H'
  {
    hide LineFields, FillFields, FormatInt;
    var fields := Fields(d, ripper);
    assert fields[0].Chr? && FormatFields(fields)[0] == [fields[0].c];
  }

  /** The first line and the payload of an object are as heavy as they could be
      only if the object is read back. */
  lemma DataIsHeavy(d: Data<Symbol, Pixmap>, ripper: int, load: Loaders)
    requires Storable(d) && HasGoodNames(d, load) && (!d.NetData? ==> ripper == 0)
    ensures
      var s := FieldLine(Fields(d, ripper)) + Payload(d);
      && IsComplete(s) && StrippedWeight(s) <= DataWeight(d)
      && (StrippedWeight(s) == DataWeight(d) ==> IsWritable(d, load))
  {
    hide FieldLine, StrippedWeight, TextWeight, NameWeight, PixmapText, HasNoReturns;
    FirstLineIsLight(d, ripper, load);
    StrippedSum(FieldLine(Fields(d, ripper)), Payload(d));
    match d
    case TextData(t) => TextPayload(t.text);
    case PathData(p) => TextPayload(p.pathdata);
    case PictureData(i) => PixmapIsHeavy(i.pixmap, load);
    case _ => NothingHasWeight();
  }

  lemma TextIsHeavy(t: Text, load: Loaders)
    requires TextIsStored(t)
    ensures IsComplete(TextText(t)) && StrippedWeight(TextText(t)) <= TextWeight(t.text + "\n")
    ensures StrippedWeight(TextText(t)) == TextWeight(t.text + "\n") ==> TextIsClean(t.text)
  {
    hide FieldLine, StrippedWeight, TextWeight;
    DataIsHeavy(TextData(t), 0, load);
  }

  lemma {:induction false} TextsAreHeavy(texts: seq<Text>, load: Loaders)
    requires forall i :: 0 <= i < |texts| ==> TextIsStored(texts[i])
    ensures IsComplete(TextsText(texts)) && StrippedWeight(TextsText(texts)) <= TextsWeight(texts)
    ensures StrippedWeight(TextsText(texts)) == TextsWeight(texts) ==>
      forall i :: 0 <= i < |texts| ==> TextIsClean(texts[i].text)
  {
    hide TextText, StrippedWeight, TextWeight, TextIsClean;
    if texts == [] {
      NothingHasWeight();
    } else {
      var others := texts[1..];
      assert forall i :: 0 <= i < |others| ==> others[i] == texts[i + 1];
      TextsAreHeavy(others, load);
      TextIsHeavy(texts[0], load);
      StrippedSum(TextText(texts[0]), TextsText(others));
      CompleteSum(TextText(texts[0]), TextsText(others));
      forall i | 0 <= i < |texts| && StrippedWeight(TextsText(texts)) == TextsWeight(texts)
        ensures TextIsClean(texts[i].text)
      {
        if i > 0 {
          assert texts[i] == others[i - 1];
        }
      }
    }
  }

  lemma BracketsHaveNoWeight(open: string, s: string, close: string)
    requires open in {"{\n", "[\n"} && close in {"}\n", "]\n"} && IsComplete(s)
    ensures IsComplete(open + s + close) && StrippedWeight(open + s + close) == StrippedWeight(s)
  {
    NoWeight(open);
    NoWeight(close);
    hide StrippedWeight;
    CompleteSum(open, s);
    StrippedSum(open, s);
    StrippedSum(open + s, close);
    CompleteSum(open + s, close);
  }

  lemma AttachedIsHeavy(texts: seq<Text>, load: Loaders)
    requires forall i :: 0 <= i < |texts| ==> TextIsStored(texts[i])
    ensures IsComplete(AttachedText(texts)) && StrippedWeight(AttachedText(texts)) <= TextsWeight(texts)
    ensures StrippedWeight(AttachedText(texts)) == TextsWeight(texts) ==>
      forall i :: 0 <= i < |texts| ==> TextIsClean(texts[i].text)
  {
    hide TextsText, StrippedWeight, TextWeight, TextIsClean;
    if texts == [] {
      NothingHasWeight();
    } else {
      TextsAreHeavy(texts, load);
      BracketsHaveNoWeight("{\n", TextsText(texts), "}\n");
    }
  }

  /** The text of an object is as heavy as it could be only if the object is read
      back. */
  lemma ObjectIsHeavy(rev: seq<Obj>, o: Obj, ripper: RipperDirection, load: Loaders)
    requires IsStored(o) && IsNamed(o, load)
    ensures IsComplete(ObjectText(rev, o, ripper)) && StrippedWeight(ObjectText(rev, o, ripper)) <= ObjectWeight(o)
    ensures StrippedWeight(ObjectText(rev, o, ripper)) == ObjectWeight(o) ==> IsWritableObject(o, load)
    decreases Height(o), 1
  {
    hide StrippedWeight, DataWeight, TextsWeight, ObjectsWeight, FieldLine, Fields, Payload, EmbeddedText, AttachedText,
      IsWritable, HasGoodNames, TextIsClean;
    var r := if o.data.NetData? then ripper(rev, o.data.net) else 0;
    var first, e, a := FieldLine(Fields(o.data, r)) + Payload(o.data), EmbeddedText(o, ripper), AttachedText(o.attached);
    DataIsHeavy(o.data, r, load);
    SymbolIsHeavy(o, ripper, load);
    AttachedIsHeavy(o.attached, load);
    CompleteSum(first, e);
    CompleteSum(first + e, a);
    StrippedSum(first, e);
    StrippedSum(first + e, a);
  }

  lemma SymbolIsHeavy(o: Obj, ripper: RipperDirection, load: Loaders)
    requires IsStored(o) && IsNamed(o, load)
    ensures
      var s, w := EmbeddedText(o, ripper), if IsEmbedded(o) && HasContents(o) then ObjectsWeight(Inner(o)) else 0;
      && IsComplete(s) && StrippedWeight(s) <= w
      && (StrippedWeight(s) == w ==> HasContents(o) && IsEmbedded(o) ==> AreWritable(Inner(o), load))
    decreases Height(o), 0
  {
    hide StrippedWeight, ObjectsWeight, ObjectsText, IsComplete, AreWritable;
    NothingHasWeight();
    if IsEmbedded(o) {
      if HasContents(o) {
        var p := PlacementOf(o.data.component);
        InnerIsPlaced(o, load);
        ObjectsAreHeavy(PlacedContents(o), PlacedContents(o), ripper, load);
        PlacedWeights(Inner(o), p);
        if AreWritable(PlacedContents(o), load) {
          PlacedWereWritable(Inner(o), p, load);
        }
      }
      BracketsHaveNoWeight("[\n", ContentsText(o, ripper), "]\n");
    }
  }

  lemma InnerIsPlaced(o: Obj, load: Loaders)
    requires IsStored(o) && IsNamed(o, load) && IsEmbedded(o) && HasContents(o)
    ensures AngleIsValid(o.data.component.angle)
    ensures PlacedContents(o) == PlaceAll(Inner(o), PlacementOf(o.data.component))
    ensures AreNamed(PlacedContents(o), load) && AreStored(PlacedContents(o))
    ensures HeightAll(PlacedContents(o)) < Height(o)
  {
    hide PlaceAll, AreNamed;
    assert AreNamed(Inner(o), load);
    PlacedAreNamed(Inner(o), PlacementOf(o.data.component), load);
  }

  lemma PlacedWereWritable(objs: seq<Obj>, p: Placement, load: Loaders)
    requires AngleIsValid(p.angle) && AreWritable(PlaceAll(objs, p), load)
    ensures AreWritable(objs, load)
  {
    forall i | 0 <= i < |objs|
      ensures IsWritableObject(objs[i], load)
    {
      assert IsWritableObject(PlaceAll(objs, p)[i], load);
      PlacedWasWritable(objs[i], p, load);
    }
  }

  lemma PlacedWasWritable(o: Obj, p: Placement, load: Loaders)
    requires AngleIsValid(p.angle) && IsWritableObject(PlaceObject(o, p), load)
    ensures IsWritableObject(o, load)
  {
    var r := PlaceObject(o, p);
    forall i | 0 <= i < |o.attached|
      ensures TextIsClean(o.attached[i].text)
    {
      assert TextIsClean(r.attached[i].text);
    }
    assert IsWritable(o.data, load);
  }

  lemma ObjectsAreHeavy(rev: seq<Obj>, objs: seq<Obj>, ripper: RipperDirection, load: Loaders)
    requires AreStored(objs) && AreNamed(objs, load)
    ensures IsComplete(ObjectsText(rev, objs, ripper))
    ensures StrippedWeight(ObjectsText(rev, objs, ripper)) <= ObjectsWeight(objs)
    ensures StrippedWeight(ObjectsText(rev, objs, ripper)) == ObjectsWeight(objs) ==> AreWritable(objs, load)
    decreases HeightAll(objs), 2, |objs|
  {
    hide StrippedWeight, ObjectText, ObjectWeight, IsComplete, IsStored, IsNamed, IsWritableObject;
    if objs == [] {
      NothingHasWeight();
    } else {
      RestIsStored(objs);
      HeightOfRest(objs);
      var others := objs[1..];
      assert forall i :: 0 <= i < |others| ==> others[i] == objs[i + 1];
      ObjectIsHeavy(rev, objs[0], ripper, load);
      ObjectsAreHeavy(rev, others, ripper, load);
      StrippedSum(ObjectText(rev, objs[0], ripper), ObjectsText(rev, others, ripper));
      CompleteSum(ObjectText(rev, objs[0], ripper), ObjectsText(rev, others, ripper));
      forall i | 0 <= i < |objs| && IsWritableObject(objs[0], load) && AreWritable(others, load)
        ensures IsWritableObject(objs[i], load)
      {
        if i > 0 {
          assert objs[i] == others[i - 1];
        }
      }
    }
  }
}
