/** Writing schematics and symbols in gEDA file format. */
module PlainWrite {
  import opened Wrappers
  import opened Sequences
  import opened ObjectData
  import opened Decimals
  import opened PlainFormat
  import opened PlainText
  import opened Streams
  import opened Base64
  import opened Drawings

  const RELEASE_VERSION := 20121203
  const FILEFORMAT_VERSION := 2

  /** The direction in which a bus is ripped: -1, 0, or 1, as found by looking
      at the other objects. */
  type RipperDirection = (seq<Obj>, Net) -> int

  const COLUMNS := 72
  const DELIMITER := "."

  // Fields of the different object types

  function Bool(b: bool): Field {
    Int(if b then 1 else 0)
  }

  /** Lengths which the dash style doesn't use are written as -1. */
  function LineFields(l: LineAttr): seq<Field> {
    if l.dashStyle == 0 then
      [Int(l.width), Int(l.capStyle), Int(l.dashStyle), Int(-1), Int(-1)]
    else if l.dashStyle == 1 then
      [Int(l.width), Int(l.capStyle), Int(l.dashStyle), Int(-1), Int(l.dashSpace)]
    else
      [Int(l.width), Int(l.capStyle), Int(l.dashStyle), Int(l.dashLength), Int(l.dashSpace)]
  }

  function FillFields(f: FillAttr): seq<Field> {
    if f.kind == 2 then
      [Int(f.kind), Int(f.width), Int(f.angle0), Int(f.pitch0), Int(f.angle1), Int(f.pitch1)]
    else if f.kind == 3 then
      [Int(f.kind), Int(f.width), Int(f.angle0), Int(f.pitch0), Int(-1), Int(-1)]
    else
      [Int(f.kind), Int(-1), Int(-1), Int(-1), Int(-1), Int(-1)]
  }

  function NetFields(n: Net, ripper: int): seq<Field> {
    if n.isPin then
      var (x0, y0, x1, y1) :=
        if n.isInverted then (n.x + n.width, n.y + n.height, n.x, n.y)
        else (n.x, n.y, n.x + n.width, n.y + n.height);
      [Chr('P'), Int(x0), Int(y0), Int(x1), Int(y1), Int(n.color), Bool(n.isBus), Bool(n.isInverted)]
    else if n.isBus then
      [Chr('U'), Int(n.x), Int(n.y), Int(n.x + n.width), Int(n.y + n.height), Int(n.color), Int(ripper)]
    else
      [Chr('N'), Int(n.x), Int(n.y), Int(n.x + n.width), Int(n.y + n.height), Int(n.color)]
  }

  function Newlines(s: string): nat {
    if s == "" then 0 else (if s[0] == '\n' then 1 else 0) + Newlines(s[1..])
  }

  function FileName(p: Pixmap): string {
    if p.filename.Some? then p.filename.value else "None"
  }

  function BaseName(s: Symbol): string {
    if s.embedded then "EMBEDDED" + s.basename else s.basename
  }

  /** The fields in the first line of an object. */
  function Fields(d: Data<Symbol, Pixmap>, ripper: int): seq<Field> {
    match d
    case LineData(l) =>
      [Chr('L'), Int(l.x), Int(l.y), Int(l.x + l.width), Int(l.y + l.height), Int(l.color)] + LineFields(l.line)
    case NetData(n) => NetFields(n, ripper)
    case BoxData(b) =>
      [Chr('B'), Int(b.x), Int(b.y), Int(b.width), Int(b.height), Int(b.color)]
      + LineFields(b.line) + FillFields(b.fill)
    case CircleData(c) =>
      [Chr('V'), Int(c.x), Int(c.y), Int(c.radius), Int(c.color)] + LineFields(c.line) + FillFields(c.fill)
    case ComponentData(c) =>
      [Chr('C'), Int(c.x), Int(c.y), Bool(c.selectable), Int(c.angle), Bool(c.mirror), Str(BaseName(c.symbol))]
    case TextData(t) =>
      [Chr('T'), Int(t.x), Int(t.y), Int(t.color), Int(t.textSize), Bool(t.visibility), Int(t.showNameValue),
       Int(t.angle), Int(t.alignment), Int(Newlines(t.text) + 1)]
    case PathData(p) =>
      [Chr('H'), Int(p.color)] + LineFields(p.line) + FillFields(p.fill) + [Int(Newlines(p.pathdata) + 1)]
    case ArcData(a) =>
      [Chr('A'), Int(a.x), Int(a.y), Int(a.radius), Int(a.startangle), Int(a.sweepangle), Int(a.color)]
      + LineFields(a.line)
    case PictureData(i) =>
      [Chr('G'), Int(i.x), Int(i.y), Int(i.width), Int(i.height), Int(i.angle), Bool(i.mirror),
       Bool(i.pixmap.embedded)]
  }

  // Whole objects

  /** What follows the first line of an object, except for symbols. */
  function Payload(d: Data<Symbol, Pixmap>): string {
    match d
    case TextData(t) => t.text + "\n"
    case PathData(p) => p.pathdata + "\n"
    case PictureData(i) => PixmapText(i.pixmap)
    case _ => ""
  }

  function PixmapText(p: Pixmap): string {
    FileName(p) + "\n" +
    if p.embedded then Concat(EncodedLines(p.data, Some(COLUMNS), Some(DELIMITER))) else ""
  }

  function TextText(t: Text): string {
    var d: Data<Symbol, Pixmap> := TextData(t);
    FieldLine(Fields(d, 0)) + Payload(d)
  }

  function TextsText(texts: seq<Text>): string {
    if texts == [] then "" else TextText(texts[0]) + TextsText(texts[1..])
  }

  /** The list of attached texts, if any. */
  function AttachedText(texts: seq<Text>): string {
    if texts == [] then "" else "{\n" + TextsText(texts) + "}\n"
  }

  /** The objects inside an embedded symbol, as they appear in the file. */
  function PlacedContents(o: Obj): (objs: seq<Obj>)
    requires IsStored(o)
    ensures AreStored(objs)
    ensures IsEmbedded(o) && HasContents(o) ==> HeightAll(objs) < Height(o)
  {
    if o.data.ComponentData? && HasContents(o) then
      var c := o.data.component;
      PlacedAreStored(Inner(o), PlacementOf(c));
      PlaceAll(Inner(o), PlacementOf(c))
    else []
  }

  function ObjectText(rev: seq<Obj>, o: Obj, ripper: RipperDirection): string
    requires IsStored(o)
    decreases Height(o), 0
  {
    var r := if o.data.NetData? then ripper(rev, o.data.net) else 0;
    FieldLine(Fields(o.data, r)) + Payload(o.data) + EmbeddedText(o, ripper) + AttachedText(o.attached)
  }

  /** The symbol of a component, if it is embedded. */
  function EmbeddedText(o: Obj, ripper: RipperDirection): string
    requires IsStored(o)
    decreases Height(o), 0, 1
  {
    if IsEmbedded(o) then "[\n" + ContentsText(o, ripper) + "]\n" else ""
  }

  function ContentsText(o: Obj, ripper: RipperDirection): string
    requires IsStored(o)
    decreases Height(o), 0, 0
  {
    if HasContents(o) && IsEmbedded(o) then ObjectsText(PlacedContents(o), PlacedContents(o), ripper) else ""
  }

  function ObjectsText(rev: seq<Obj>, objs: seq<Obj>, ripper: RipperDirection): string
    requires AreStored(objs)
    decreases HeightAll(objs), 1, |objs|
  {
    if objs == [] then ""
    else
      assert forall i :: 0 <= i < |objs[1..]| ==> objs[1..][i] == objs[i + 1];
      ObjectText(rev, objs[0], ripper) + ObjectsText(rev, objs[1..], ripper)
  }

  function Header(): string {
    FieldLine([Chr('v'), Int(RELEASE_VERSION), Int(FILEFORMAT_VERSION)])
  }

  function FileText(objs: seq<Obj>, ripper: RipperDirection): string
    requires AreStored(objs)
  {
    Header() + ObjectsText(objs, objs, ripper)
  }

  // Writing

  /** Write a schematic or symbol to a file. */
  method WriteFile(f: Output, objs: seq<Obj>, ripper: RipperDirection)
    requires AreStored(objs)
    modifies f
    ensures f.text == old(f.text) + FileText(objs, ripper)
  {
    Associative(f.text, Header(), ObjectsText(objs, objs, ripper));
    f.Write(Header());
    WriteObjects(f, objs, objs, ripper);
  }

  method WriteObjects(f: Output, rev: seq<Obj>, objs: seq<Obj>, ripper: RipperDirection)
    requires AreStored(objs)
    modifies f
    ensures f.text == old(f.text) + ObjectsText(rev, objs, ripper)
    decreases HeightAll(objs), 1
  {
    var i := 0;
    assert objs[0..] == objs;
    while i < |objs|
      invariant i <= |objs| && AreStored(objs[i..])
      invariant f.text + ObjectsText(rev, objs[i..], ripper) == old(f.text) + ObjectsText(rev, objs, ripper)
    {
      hide ObjectText, IsStored;
      TextOfNext(f.text, rev, objs, i, ripper);
      WriteObject(f, rev, objs[i], ripper);
      i := i + 1;
    }
    assert f.text + "" == f.text;
  }

  lemma TextOfNext(start: string, rev: seq<Obj>, objs: seq<Obj>, i: nat, ripper: RipperDirection)
    requires AreStored(objs) && i < |objs|
    ensures AreStored(objs[i..]) && AreStored(objs[i + 1..]) && IsStored(objs[i])
    ensures start + ObjectsText(rev, objs[i..], ripper) ==
      start + ObjectText(rev, objs[i], ripper) + ObjectsText(rev, objs[i + 1..], ripper)
  {
    assert forall j :: 0 <= j < |objs[i..]| ==> objs[i..][j] == objs[i + j];
    assert objs[i..][1..] == objs[i + 1..];
    assert AreStored(objs[i..]);
    hide ObjectText, IsStored;
    Associative(start, ObjectText(rev, objs[i], ripper), ObjectsText(rev, objs[i + 1..], ripper));
  }

  /** Write an object, with the contents of its symbol if this is embedded, and
      the texts attached to it. */
  method WriteObject(f: Output, rev: seq<Obj>, o: Obj, ripper: RipperDirection)
    requires IsStored(o)
    modifies f
    ensures f.text == old(f.text) + ObjectText(rev, o, ripper)
    decreases Height(o), 0, 2
  {
    hide Fields, Payload, EmbeddedText, AttachedText, IsStored, FieldLine, Height;
    var ripperDirection := if o.data.NetData? then ripper(rev, o.data.net) else 0;
    var first := FieldLine(Fields(o.data, ripperDirection));
    f.Write(first);
    WritePayload(f, o.data);
    WriteEmbedded(f, o, ripper);
    WriteAttached(f, o.attached);
    FourParts(old(f.text), first, Payload(o.data), EmbeddedText(o, ripper), AttachedText(o.attached));
  }

  lemma FourParts(start: string, a: string, b: string, c: string, d: string)
    ensures start + a + b + c + d == start + (a + b + c + d)
  {
    Associative(start, a, b);
    Associative(start, a + b, c);
    Associative(start, a + b + c, d);
  }

  method WriteEmbedded(f: Output, o: Obj, ripper: RipperDirection)
    requires IsStored(o)
    modifies f
    ensures f.text == old(f.text) + EmbeddedText(o, ripper)
    decreases Height(o), 0, 1
  {
    if IsEmbedded(o) {
      f.Write("[\n");
      if HasContents(o) {
        var objs := PlacedContents(o);
        WriteObjects(f, objs, objs, ripper);
      }
      f.Write("]\n");
      Brackets(old(f.text), "[\n", ContentsText(o, ripper), "]\n");
    }
  }

  lemma Brackets(start: string, open: string, s: string, close: string)
    ensures start + open + s + close == start + (open + s + close)
  {
    Associative(start, open, s);
    Associative(start, open + s, close);
  }

  method WriteAttached(f: Output, texts: seq<Text>)
    modifies f
    ensures f.text == old(f.text) + AttachedText(texts)
  {
    if texts != [] {
      f.Write("{\n");
      WriteTexts(f, texts);
      f.Write("}\n");
      Brackets(old(f.text), "{\n", TextsText(texts), "}\n");
    }
  }

  method WritePayload(f: Output, d: Data<Symbol, Pixmap>)
    modifies f
    ensures f.text == old(f.text) + Payload(d)
  {
    match d
    case TextData(t) => f.Write(t.text + "\n");
    case PathData(p) => f.Write(p.pathdata + "\n");
    case PictureData(i) => WritePixmap(f, i.pixmap);
    case _ => assert f.text + "" == f.text;
  }

  method WritePixmap(f: Output, p: Pixmap)
    modifies f
    ensures f.text == old(f.text) + PixmapText(p)
  {
    hide EncodedLines, Concat;
    f.Write(FileName(p) + "\n");
    if p.embedded {
      Encode(f, p.data, Some(COLUMNS), Some(DELIMITER));
    }
  }

  method WriteTexts(f: Output, texts: seq<Text>)
    modifies f
    ensures f.text == old(f.text) + TextsText(texts)
  {
    var i := 0;
    assert texts[0..] == texts;
    while i < |texts|
      invariant i <= |texts|
      invariant f.text + TextsText(texts[i..]) == old(f.text) + TextsText(texts)
    {
      hide TextText;
      assert texts[i..][1..] == texts[i + 1..];
      Associative(f.text, TextText(texts[i]), TextsText(texts[i + 1..]));
      WriteText(f, texts[i]);
      i := i + 1;
    }
    assert f.text + "" == f.text;
  }

  method WriteText(f: Output, t: Text)
    modifies f
    ensures f.text == old(f.text) + TextText(t)
  {
    ghost var d: Data<Symbol, Pixmap> := TextData(t);
    f.Write(FieldLine(Fields(TextData(t), 0)));
    f.Write(t.text + "\n");
    assert f.text == old(f.text) + FieldLine(Fields(d, 0)) + Payload(d);
  }
}
