/** What the lines of a file look like: each kind of object as it is written. */
module PlainSamples {
  import opened Wrappers
  import opened Sequences
  import opened ObjectData
  import opened Decimals
  import opened PlainText
  import opened Streams
  import opened Base64
  import opened Drawings
  import opened PlainFormat
  import opened PlainWrite

  lemma SmallNumbers()
    ensures FormatInt(-1) == "-1" && FormatInt(0) == "0" && FormatInt(1) == "1" && FormatInt(2) == "2"
    ensures FormatInt(3) == "3" && FormatInt(4) == "4" && FormatInt(5) == "5" && FormatInt(6) == "6"
    ensures FormatInt(7) == "7" && FormatInt(8) == "8" && FormatInt(9) == "9" && FormatInt(90) == "90"
  {
  }

  lemma SmallStrings()
    ensures Newlines("M\nz") == 1 && Newlines("a\nb") == 1 && Newlines("a=b") == 0
    ensures "EMBEDDED" + "a.sym" == "EMBEDDEDa.sym"
  {
    assert "M\nz"[1..][1..] == "z" && "a\nb"[1..][1..] == "b";
    assert "a=b"[1..][1..] == "b" && "z"[1..] == "" && "b"[1..] == "";
  }

  /** The words in the first line of an object. */
  function Words(d: Data<Symbol, Pixmap>, ripper: int): seq<string> {
    FormatFields(Fields(d, ripper))
  }

  /** A solid line: the lengths of dashes and spaces are written as -1. */
  lemma SolidLine()
    ensures Words(LineData(Line(1, 2, 3, 4, 5, LineAttr(6, 1, 0, 0, 0))), 0) ==
      ["L", "1", "2", "4", "6", "5", "6", "1", "0", "-1", "-1"]
  {
    SmallNumbers();
    SmallStrings();
    hide FormatInt, FormatFields, Newlines;
  }

  /** A dotted line: the length of dashes is written as -1. */
  lemma DottedLine()
    ensures Words(LineData(Line(1, 2, 3, 4, 5, LineAttr(6, 2, 1, 0, 7))), 0) ==
      ["L", "1", "2", "4", "6", "5", "6", "2", "1", "-1", "7"]
  {
    SmallNumbers();
    SmallStrings();
    hide FormatInt, FormatFields, Newlines;
  }

  /** A dashed line. */
  lemma DashedLine()
    ensures Words(LineData(Line(1, 2, 3, 4, 5, LineAttr(6, 2, 2, 8, 7))), 0) ==
      ["L", "1", "2", "4", "6", "5", "6", "2", "2", "8", "7"]
  {
    SmallNumbers();
    SmallStrings();
    hide FormatInt, FormatFields, Newlines;
  }

  /** A box which is not filled. */
  lemma HollowBox()
    ensures Words(BoxData(Box(1, 2, 3, 4, 5, LineAttr(6, 0, 0, 0, 0), FillAttr(0, 0, 0, 0, 0, 0))), 0) ==
      ["B", "1", "2", "3", "4", "5", "6", "0", "0", "-1", "-1", "0", "-1", "-1", "-1", "-1", "-1"]
  {
    SmallNumbers();
    SmallStrings();
    hide FormatInt, FormatFields, Newlines;
  }

  /** A hatched circle: there is no second hatch. */
  lemma HatchedCircle()
    ensures Words(CircleData(Circle(1, 2, 3, 4, LineAttr(5, 0, 0, 0, 0), FillAttr(3, 6, 7, 8, 0, 0))), 0) ==
      ["V", "1", "2", "3", "4", "5", "0", "0", "-1", "-1", "3", "6", "7", "8", "-1", "-1"]
  {
    SmallNumbers();
    SmallStrings();
    hide FormatInt, FormatFields, Newlines;
  }

  /** A path filled with a mesh, on two lines. */
  lemma MeshedPath()
    ensures Words(PathData(Path("M\nz", 3, LineAttr(4, 0, 0, 0, 0), FillAttr(2, 5, 6, 7, 8, 9))), 0) ==
      ["H", "3", "4", "0", "0", "-1", "-1", "2", "5", "6", "7", "8", "9", "2"]
  {
    SmallNumbers();
    SmallStrings();
    hide FormatInt, FormatFields, Newlines;
  }

  /** A net. */
  lemma PlainNet()
    ensures Words(NetData(Net(1, 2, 3, 4, 5, false, false, false)), 0) ==
      ["N", "1", "2", "4", "6", "5"]
  {
    SmallNumbers();
    SmallStrings();
    hide FormatInt, FormatFields, Newlines;
  }

  /** A bus, with the direction of its rippers. */
  lemma PlainBus()
    ensures Words(NetData(Net(1, 2, 3, 4, 5, true, false, false)), -1) ==
      ["U", "1", "2", "4", "6", "5", "-1"]
  {
    SmallNumbers();
    SmallStrings();
    hide FormatInt, FormatFields, Newlines;
  }

  /** A pin: the active end comes first. */
  lemma PlainPin()
    ensures Words(NetData(Net(1, 2, 3, 4, 5, false, true, false)), 0) ==
      ["P", "1", "2", "4", "6", "5", "0", "0"]
  {
    SmallNumbers();
    SmallStrings();
    hide FormatInt, FormatFields, Newlines;
  }

  /** A pin for a bus whose active end is the other one. */
  lemma InvertedBusPin()
    ensures Words(NetData(Net(1, 2, 3, 4, 5, true, true, true)), 0) ==
      ["P", "4", "6", "1", "2", "5", "1", "1"]
  {
    SmallNumbers();
    SmallStrings();
    hide FormatInt, FormatFields, Newlines;
  }

  /** An arc. */
  lemma PlainArc()
    ensures Words(ArcData(Arc(1, 2, 3, 4, 5, 6, LineAttr(7, 0, 0, 0, 0))), 0) ==
      ["A", "1", "2", "3", "4", "5", "6", "7", "0", "0", "-1", "-1"]
  {
    SmallNumbers();
    SmallStrings();
    hide FormatInt, FormatFields, Newlines;
  }

  /** A text on two lines. */
  lemma TwoLines()
    ensures Words(TextData(Text(1, 2, 3, 4, true, 1, 0, 5, "a\nb")), 0) ==
      ["T", "1", "2", "3", "4", "1", "1", "0", "5", "2"]
  {
    SmallNumbers();
    SmallStrings();
    hide FormatInt, FormatFields, Newlines;
  }

  /** A component whose symbol is in a library. */
  lemma OtherSymbol()
    ensures Words(ComponentData(Component(1, 2, true, 0, false, Symbol("a.sym", Missing, false))), 0) ==
      ["C", "1", "2", "1", "0", "0", "a.sym"]
  {
    SmallNumbers();
    SmallStrings();
    hide FormatInt, FormatFields, Newlines;
  }

  /** A component whose symbol is embedded. */
  lemma OwnSymbol()
    ensures Words(ComponentData(Component(1, 2, false, 0, true, Symbol("a.sym", Contents([]), true))), 0) ==
      ["C", "1", "2", "0", "0", "1", "EMBEDDEDa.sym"]
  {
    SmallNumbers();
    SmallStrings();
    hide FormatInt, FormatFields, Newlines;
  }

  /** A picture whose pixmap is embedded. */
  lemma OwnPixmap()
    ensures Words(PictureData(Picture(1, 2, 3, 4, 0, true, Pixmap(Some("a.png"), [], true))), 0) ==
      ["G", "1", "2", "3", "4", "0", "1", "1"]
  {
    SmallNumbers();
    SmallStrings();
    hide FormatInt, FormatFields, Newlines;
  }

  // Fields which aren't used

  /** What the dash style doesn't use is written as -1, and everything else as it
      is. */
  lemma UnusedLineFields(l: LineAttr)
    requires LineIsValid(l)
    ensures
      var v := LineFields(l);
      && |v| == 5 && v[0] == Int(l.width) && v[1] == Int(l.capStyle) && v[2] == Int(l.dashStyle)
      && (v[3] == Int(-1) <==> l.dashStyle in {0, 1}) && (v[4] == Int(-1) <==> l.dashStyle == 0)
      && v[3] in {Int(-1), Int(l.dashLength)} && v[4] in {Int(-1), Int(l.dashSpace)}
  {
  }

  /** What the kind of filling doesn't use is written as -1, and everything else as
      it is. */
  lemma UnusedFillFields(f: FillAttr)
    requires FillIsValid(f)
    ensures
      var v := FillFields(f);
      && |v| == 6 && v[0] == Int(f.kind)
      && (f.kind in {2, 3} ==> v[1] == Int(f.width) && v[2] == Int(f.angle0) && v[3] == Int(f.pitch0))
      && (f.kind !in {2, 3} ==> v[1] == v[2] == v[3] == Int(-1))
      && (f.kind == 2 ==> v[4] == Int(f.angle1) && v[5] == Int(f.pitch1))
      && (f.kind != 2 ==> v[4] == v[5] == Int(-1))
  {
  }

  // Whole files

  /** A line of words, with a space before each word but the first. */
  function Spaced(words: seq<string>): string
    requires words != []
  {
    if |words| == 1 then words[0] else Spaced(words[..|words| - 1]) + " " + words[|words| - 1]
  }

  lemma {:induction false} JoinIsSpaced(words: seq<string>)
    requires words != []
    ensures Join(words) == Spaced(words)
    decreases |words|
  {
    if |words| > 1 {
      JoinMore(words[..|words| - 1], words[|words| - 1]);
      JoinIsSpaced(words[..|words| - 1]);
      assert words == words[..|words| - 1] + [words[|words| - 1]];
    }
  }

  lemma {:induction false} JoinMore(words: seq<string>, w: string)
    requires words != []
    ensures Join(words + [w]) == Join(words) + " " + w
    decreases |words|
  {
    var all := words + [w];
    if |words| == 1 {
      assert all[1..] == [w];
    } else {
      assert all[1..] == words[1..] + [w];
      JoinMore(words[1..], w);
      Associative(words[0] + " ", Join(words[1..]), " ");
      Associative(words[0] + " ", Join(words[1..]) + " ", w);
    }
  }

  lemma HeaderWords()
    ensures Header() == Join(["v", "20121203", "2"]) + "\n"
  {
    VersionDigits();
    SmallNumbers();
    hide FormatInt, Join;
    assert FormatFields([Chr('v'), Int(RELEASE_VERSION), Int(FILEFORMAT_VERSION)]) == ["v", "20121203", "2"];
  }

  lemma VersionDigits()
    ensures FormatInt(20121203) == "20121203"
  {
    assert Digits(20) == "20" && Digits(201) == "201" && Digits(2012) == "2012";
    assert Digits(20121) == "20121" && Digits(201212) == "201212" && Digits(2012120) == "2012120";
  }

  /** A component with an attribute, whose embedded symbol has got a line. */
  function SampleComponent(): Obj {
    var l := Obj(LineData(Line(0, 0, 1, 0, 3, LineAttr(0, 0, 0, 0, 0))), []);
    Obj(ComponentData(Component(1, 2, true, 90, false, Symbol("a.sym", Contents([l]), true))),
        [Text(5, 6, 3, 8, true, 0, 0, 0, "a=b")])
  }

  function LineOfWords(words: seq<string>): string {
    Join(words) + "\n"
  }

  function SampleLine(): string {
    LineOfWords(["L", "1", "2", "1", "3", "3", "0", "0", "0", "-1", "-1"])
  }

  function SampleText(): string {
    LineOfWords(["T", "5", "6", "3", "8", "1", "0", "0", "0", "1"])
  }

  const PLACED := Obj(LineData(Line(1, 2, 0, 1, 3, LineAttr(0, 0, 0, 0, 0))), [])

  lemma LineWords()
    ensures Words(PLACED.data, 0) == ["L", "1", "2", "1", "3", "3", "0", "0", "0", "-1", "-1"]
  {
    SmallNumbers();
    hide FormatInt, FormatFields;
  }

  lemma TextWords()
    ensures Words(TextData(SampleComponent().attached[0]), 0) == ["T", "5", "6", "3", "8", "1", "0", "0", "0", "1"]
  {
    SmallNumbers();
    SmallStrings();
    hide FormatInt, FormatFields, Newlines;
  }

  lemma ComponentWords()
    ensures Words(SampleComponent().data, 0) == ["C", "1", "2", "1", "90", "0", "EMBEDDEDa.sym"]
  {
    SmallNumbers();
    SmallStrings();
    hide FormatInt, FormatFields;
  }

  lemma SampleIsStored()
    ensures IsStored(SampleComponent()) && IsStored(PLACED)
  {
    var o := SampleComponent();
    assert Inner(o)[0].data.LineData?;
  }

  /** The line in the symbol, as it is placed. */
  lemma SampleContents()
    requires IsStored(SampleComponent())
    ensures PlacedContents(SampleComponent()) == [PLACED]
  {
    var l := Obj(LineData(Line(0, 0, 1, 0, 3, LineAttr(0, 0, 0, 0, 0))), []);
    var p := Placement(1, 2, 90, false);
    assert Inner(SampleComponent()) == [l];
    assert PlaceObject(l, p) == PLACED;
    assert [l][1..] == [];
  }

  lemma OneObjectText(rev: seq<Obj>, o: Obj, ripper: RipperDirection)
    requires IsStored(o)
    ensures ObjectsText(rev, [o], ripper) == ObjectText(rev, o, ripper)
  {
    hide ObjectText, IsStored;
    assert [o][1..] == [];
    assert ObjectText(rev, o, ripper) + "" == ObjectText(rev, o, ripper);
  }

  lemma PlacedText(ripper: RipperDirection)
    requires IsStored(PLACED)
    ensures ObjectsText([PLACED], [PLACED], ripper) == SampleLine()
  {
    LineWords();
    hide Join, Fields, FormatFields, IsStored;
    OneObjectText([PLACED], PLACED, ripper);
    assert SampleLine() + "" + "" + "" == SampleLine();
  }

  lemma SampleSymbol(ripper: RipperDirection)
    requires IsStored(SampleComponent()) && IsStored(PLACED)
    ensures EmbeddedText(SampleComponent(), ripper) == "[\n" + SampleLine() + "]\n"
  {
    hide IsStored, PlacedContents, ObjectsText, SampleLine;
    SampleContents();
    PlacedText(ripper);
  }

  lemma SampleAttached()
    ensures AttachedText(SampleComponent().attached) == "{\n" + SampleText() + "a=b\n" + "}\n"
  {
    TextWords();
    hide Join, Fields, FormatFields;
    var texts := SampleComponent().attached;
    assert texts[1..] == [];
    assert TextText(texts[0]) == SampleText() + ("a=b" + "\n");
    assert TextsText(texts) == SampleText() + ("a=b" + "\n") + "";
    assert "a=b" + "\n" == "a=b\n";
    hide SampleText, TextsText;
    Associative("{\n", SampleText(), "a=b\n");
    assert SampleText() + "a=b\n" + "" == SampleText() + "a=b\n";
  }

  lemma SampleObject(ripper: RipperDirection)
    requires IsStored(SampleComponent())
    ensures
      var o := SampleComponent();
      ObjectsText([o], [o], ripper) ==
        LineOfWords(["C", "1", "2", "1", "90", "0", "EMBEDDEDa.sym"]) + EmbeddedText(o, ripper) + AttachedText(o.attached)
  {
    ComponentWords();
    hide Join, Fields, EmbeddedText, AttachedText, FormatFields, IsStored;
    var o := SampleComponent();
    OneObjectText([o], o, ripper);
    var line := LineOfWords(["C", "1", "2", "1", "90", "0", "EMBEDDEDa.sym"]);
    assert line + "" == line;
  }

  /** How a whole file looks. */
  lemma SampleIsWritten(ripper: RipperDirection)
    ensures IsStored(SampleComponent())
    ensures FileText([SampleComponent()], ripper) ==
      LineOfWords(["v", "20121203", "2"])
      + LineOfWords(["C", "1", "2", "1", "90", "0", "EMBEDDEDa.sym"])
      + "[\n"
      + LineOfWords(["L", "1", "2", "1", "3", "3", "0", "0", "0", "-1", "-1"])
      + "]\n"
      + "{\n"
      + LineOfWords(["T", "5", "6", "3", "8", "1", "0", "0", "0", "1"])
      + "a=b\n"
      + "}\n"
  {
    SampleIsStored();
    HeaderWords();
    hide Join, Header, ObjectsText, EmbeddedText, AttachedText, IsStored, SampleComponent;
    SampleObject(ripper);
    SampleSymbol(ripper);
    SampleAttached();
    var head, line := LineOfWords(["v", "20121203", "2"]), LineOfWords(["C", "1", "2", "1", "90", "0", "EMBEDDEDa.sym"]);
    SampleParts(head, line, SampleLine(), SampleText());
  }

  lemma SampleParts(head: string, line: string, l: string, t: string)
    ensures head + (line + ("[\n" + l + "]\n") + ("{\n" + t + "a=b\n" + "}\n"))
         == head + line + "[\n" + l + "]\n" + "{\n" + t + "a=b\n" + "}\n"
  {
    var start := head + line;
    Associative(head, line, "[\n" + l + "]\n");
    Associative(head, line + ("[\n" + l + "]\n"), "{\n" + t + "a=b\n" + "}\n");
    Associative(start, "[\n" + l, "]\n");
    Associative(start, "[\n", l);
    var s := start + "[\n" + l + "]\n";
    Associative(s, "{\n" + t + "a=b\n", "}\n");
    Associative(s, "{\n" + t, "a=b\n");
    Associative(s, "{\n", t);
  }

  // Pixmaps

  /** The data of an embedded pixmap, on lines of at most 72 characters, and a point
      on a line of its own; all lines of data but the last one are full. */
  lemma PixmapIsWritten(p: Pixmap, i: nat)
    requires p.embedded && p.filename.Some?
    ensures PixmapText(p) == p.filename.value + "\n" + Concat(EncodedLines(p.data, Some(72), Some(".")))
    ensures
      var lines := EncodedLines(p.data, Some(72), Some("."));
      && (i + 1 == |lines| ==> lines[i] == ".\n")
      && (i + 1 < |lines| ==> 2 <= |lines[i]| <= 73)
      && (i + 2 < |lines| ==> |lines[i]| == 73)
  {
    hide Concat, EncodeAll;
    var data := Wrap(EncodeAll(p.data), Some(72));
    assert "." + "\n" == ".\n";
    if i < |data| {
      WrapLengths(EncodeAll(p.data), Some(72), i);
    }
  }

  /** A pixmap which isn't embedded is written as its name alone. */
  lemma PixmapIsNamed(p: Pixmap)
    requires !p.embedded
    ensures PixmapText(p) == (if p.filename.Some? then p.filename.value else "None") + "\n"
  {
  }
}
