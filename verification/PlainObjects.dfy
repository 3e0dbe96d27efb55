/** Reading back single objects. */
module PlainObjects {
  import opened Wrappers
  import opened Sequences
  import opened ObjectData
  import opened Decimals
  import opened PlainFormat
  import opened PlainText
  import opened PlainLines
  import opened Streams
  import opened Base64
  import opened Base64Decoding
  import opened Base64RoundTrip
  import opened Drawings
  import opened PlainWrite
  import opened PlainRead

  /** What can be written so that it can be read again.  Names of symbols and
      pixmaps must fit on a line, names of symbols which aren't embedded mustn't
      look as if they were, and lines mustn't end with carriage returns. */
  ghost predicate IsWritable(d: Data<Symbol, Pixmap>, load: Loaders) {
    match d
    case ComponentData(c) =>
      if c.symbol.embedded then IsWord("EMBEDDED" + c.symbol.basename)
      else
        && IsWord(c.symbol.basename) && !StartsWithEmbedded(c.symbol.basename)
        && load.symbol(c.symbol.basename) == c.symbol
    case PictureData(i) =>
      && i.pixmap.filename.Some? && i.pixmap.filename.value != ""
      && IsLine(i.pixmap.filename.value + "\n") && HasNoReturns(i.pixmap.filename.value + "\n")
      && (!i.pixmap.embedded ==> load.pixmap(i.pixmap.filename) == i.pixmap)
    case TextData(t) => TextIsClean(t.text)
    case PathData(p) => TextIsClean(p.pathdata)
    case _ => true
  }

  /** What is known about an object before the symbol which follows has been
      read. */
  function Shell(d: Data<Symbol, Pixmap>): Data<Symbol, Pixmap> {
    if d.ComponentData? && d.component.symbol.embedded then
      ComponentData(d.component.(symbol := d.component.symbol.(contents := Missing)))
    else d
  }

  lemma LineFieldsReturn(l: LineAttr)
    ensures |LineFields(l)| == 5 && forall i :: 0 <= i < 5 ==> LineFields(l)[i].Int?
    ensures NormalizeLine(l) == l ==> LineOf(LineFields(l), 0) == l
  {
  }

  lemma FillFieldsReturn(f: FillAttr)
    ensures |FillFields(f)| == 6 && forall i :: 0 <= i < 6 ==> FillFields(f)[i].Int?
    ensures NormalizeFill(f) == f ==> FillOf(FillFields(f), 0) == f
  {
  }

  lemma LineIsAt(v: seq<Field>, i: nat, l: LineAttr)
    requires i + 5 <= |v| && v[i..i + 5] == LineFields(l) && NormalizeLine(l) == l
    ensures forall j :: i <= j < i + 5 ==> v[j].Int?
    ensures LineOf(v, i) == l
  {
    LineFieldsReturn(l);
    hide LineFields;
    var u := v[i..i + 5];
    assert v[i] == u[0] && v[i + 1] == u[1] && v[i + 2] == u[2] && v[i + 3] == u[3] && v[i + 4] == u[4];
    assert forall j :: i <= j < i + 5 ==> v[j] == u[j - i];
  }

  lemma FillIsAt(v: seq<Field>, i: nat, f: FillAttr)
    requires i + 6 <= |v| && v[i..i + 6] == FillFields(f) && NormalizeFill(f) == f
    ensures forall j :: i <= j < i + 6 ==> v[j].Int?
    ensures FillOf(v, i) == f
  {
    FillFieldsReturn(f);
    hide FillFields;
    var u := v[i..i + 6];
    assert v[i] == u[0] && v[i + 1] == u[1] && v[i + 2] == u[2];
    assert v[i + 3] == u[3] && v[i + 4] == u[4] && v[i + 5] == u[5];
    assert forall j :: i <= j < i + 6 ==> v[j] == u[j - i];
  }

  /** Fields starting with the object type and followed by integers. */
  lemma IntegersReturn(fields: seq<Field>, n: nat)
    requires |fields| == n + 1 && fields[0].Chr? && !IsSpace(fields[0].c)
    requires forall i :: 1 <= i <= n ==> fields[i].Int?
    ensures Sscanf(FieldLine(fields), [C] + Ints(n)) == Some(fields)
    ensures IsLine(FieldLine(fields)) && '\r' !in FieldLine(fields)
    ensures FieldLine(fields)[0] == fields[0].c
  {
    hide Sscanf, FieldLine, IsSpace;
    LineReturns(fields, [C] + Ints(n));
  }

  /** What it means for an object to be read back. */
  ghost predicate Returns(d: Data<Symbol, Pixmap>, ripper: int, load: Loaders) {
    var line := FieldLine(Fields(d, ripper));
    && IsLine(line) && '\r' !in line
    && IsObjectType(line[0])
    && forall rest {:trigger SplitLines(Payload(d)) + rest} ::
         ReadObject(line[0], line, SplitLines(Payload(d)) + rest, load) == Parsed(Some(Shell(d)), rest, 0)
  }

  /** The first field is the object type, and the others are integers. */
  ghost predicate AreInts(fields: seq<Field>, c: char, n: nat) {
    && |fields| == n + 1 && fields[0] == Chr(c)
    && forall i :: 1 <= i <= n ==> fields[i].Int?
  }

  /** Objects which fit on a line. */
  lemma SingleReturns(d: Data<Symbol, Pixmap>, ripper: int, load: Loaders, c: char, n: nat)
    requires Payload(d) == "" && Shell(d) == d
    requires AreInts(Fields(d, ripper), c, n) && IsObjectType(c)
    requires forall rest :: ReadObject(c, FieldLine(Fields(d, ripper)), rest, load) == Single(Some(d), rest)
    ensures Returns(d, ripper, load)
  {
    hide ReadObject, Fields, FieldLine, Shell, Payload;
    IntegersReturn(Fields(d, ripper), n);
    forall rest: seq<string>
      ensures SplitLines(Payload(d)) + rest == rest
    {
      assert SplitLines("") == [];
    }
  }

  lemma LineIsRead(l: Line)
    requires NormalizeLine(l.line) == l.line && ColorIsValid(l.color)
    ensures
      var d: Data<Symbol, Pixmap> := LineData(l);
      AreInts(Fields(d, 0), 'L', 10) && ReadLineObject(FieldLine(Fields(d, 0))) == Some(d)
  {
    hide Sscanf, FieldLine, LineOf, LineFields;
    var d: Data<Symbol, Pixmap> := LineData(l);
    var fields := Fields(d, 0);
    LineFieldsReturn(l.line);
    assert fields[6..11] == LineFields(l.line);
    LineIsAt(fields, 6, l.line);
    IntegersReturn(fields, 10);
  }

  lemma NetIsRead(n: Net, ripper: int)
    requires ColorIsValid(n.color) && !n.isPin && !n.isBus && !n.isInverted
    ensures
      var d: Data<Symbol, Pixmap> := NetData(n);
      AreInts(Fields(d, ripper), 'N', 5) && ReadNet(FieldLine(Fields(d, ripper))) == Some(d)
  {
    hide Sscanf, FieldLine;
    var d: Data<Symbol, Pixmap> := NetData(n);
    IntegersReturn(Fields(d, ripper), 5);
  }

  lemma BusIsRead(n: Net, ripper: int)
    requires ColorIsValid(n.color) && !n.isPin && n.isBus && !n.isInverted
    ensures
      var d: Data<Symbol, Pixmap> := NetData(n);
      AreInts(Fields(d, ripper), 'U', 6) && ReadBus(FieldLine(Fields(d, ripper))) == Some(d)
  {
    hide Sscanf, FieldLine;
    var d: Data<Symbol, Pixmap> := NetData(n);
    IntegersReturn(Fields(d, ripper), 6);
  }

  lemma PinIsRead(n: Net, ripper: int)
    requires ColorIsValid(n.color) && n.isPin
    ensures
      var d: Data<Symbol, Pixmap> := NetData(n);
      AreInts(Fields(d, ripper), 'P', 7) && ReadPin(FieldLine(Fields(d, ripper))) == Some(d)
  {
    hide Sscanf, FieldLine;
    var d: Data<Symbol, Pixmap> := NetData(n);
    IntegersReturn(Fields(d, ripper), 7);
  }

  lemma BoxIsRead(b: Box)
    requires NormalizeLine(b.line) == b.line && NormalizeFill(b.fill) == b.fill && ColorIsValid(b.color)
    ensures
      var d: Data<Symbol, Pixmap> := BoxData(b);
      AreInts(Fields(d, 0), 'B', 16) && ReadBox(FieldLine(Fields(d, 0))) == Some(d)
  {
    hide Sscanf, FieldLine, LineOf, LineFields, FillOf, FillFields;
    var d: Data<Symbol, Pixmap> := BoxData(b);
    var fields := Fields(d, 0);
    LineFieldsReturn(b.line);
    FillFieldsReturn(b.fill);
    assert fields[6..11] == LineFields(b.line) && fields[11..17] == FillFields(b.fill);
    LineIsAt(fields, 6, b.line);
    FillIsAt(fields, 11, b.fill);
    IntegersReturn(fields, 16);
  }

  lemma CircleIsRead(c: Circle)
    requires NormalizeLine(c.line) == c.line && NormalizeFill(c.fill) == c.fill
    requires ColorIsValid(c.color) && c.radius >= 0
    ensures
      var d: Data<Symbol, Pixmap> := CircleData(c);
      AreInts(Fields(d, 0), 'V', 15) && ReadCircle(FieldLine(Fields(d, 0))) == Some(d)
  {
    hide Sscanf, FieldLine, LineOf, LineFields, FillOf, FillFields;
    var d: Data<Symbol, Pixmap> := CircleData(c);
    var fields := Fields(d, 0);
    LineFieldsReturn(c.line);
    FillFieldsReturn(c.fill);
    assert fields[5..10] == LineFields(c.line) && fields[10..16] == FillFields(c.fill);
    LineIsAt(fields, 5, c.line);
    FillIsAt(fields, 10, c.fill);
    IntegersReturn(fields, 15);
  }

  lemma ArcIsRead(a: Arc)
    requires NormalizeLine(a.line) == a.line && ColorIsValid(a.color) && a.radius >= 0
    ensures
      var d: Data<Symbol, Pixmap> := ArcData(a);
      AreInts(Fields(d, 0), 'A', 11) && ReadArc(FieldLine(Fields(d, 0))) == Some(d)
  {
    hide Sscanf, FieldLine, LineOf, LineFields;
    var d: Data<Symbol, Pixmap> := ArcData(a);
    var fields := Fields(d, 0);
    LineFieldsReturn(a.line);
    assert fields[7..12] == LineFields(a.line);
    LineIsAt(fields, 7, a.line);
    IntegersReturn(fields, 11);
  }

  lemma LineObjectReturns(l: Line, load: Loaders)
    requires var d: Data<Symbol, Pixmap> := LineData(l); Storable(d)
    ensures Returns(LineData(l), 0, load)
  {
    hide FieldLine, Fields, ReadLineObject;
    LineIsRead(l);
    SingleReturns(LineData(l), 0, load, 'L', 10);
  }

  lemma BoxReturns(b: Box, load: Loaders)
    requires var d: Data<Symbol, Pixmap> := BoxData(b); Storable(d)
    ensures Returns(BoxData(b), 0, load)
  {
    hide FieldLine, Fields, ReadBox;
    BoxIsRead(b);
    SingleReturns(BoxData(b), 0, load, 'B', 16);
  }

  lemma CircleReturns(c: Circle, load: Loaders)
    requires var d: Data<Symbol, Pixmap> := CircleData(c); Storable(d)
    ensures Returns(CircleData(c), 0, load)
  {
    hide FieldLine, Fields, ReadCircle;
    CircleIsRead(c);
    SingleReturns(CircleData(c), 0, load, 'V', 15);
  }

  lemma ArcReturns(a: Arc, load: Loaders)
    requires var d: Data<Symbol, Pixmap> := ArcData(a); Storable(d)
    ensures Returns(ArcData(a), 0, load)
  {
    hide FieldLine, Fields, ReadArc;
    ArcIsRead(a);
    SingleReturns(ArcData(a), 0, load, 'A', 11);
  }

  lemma NetReturns(n: Net, ripper: int, load: Loaders)
    requires var d: Data<Symbol, Pixmap> := NetData(n); Storable(d) && !n.isPin && !n.isBus
    ensures Returns(NetData(n), ripper, load)
  {
    hide FieldLine, Fields, ReadNet;
    NetIsRead(n, ripper);
    SingleReturns(NetData(n), ripper, load, 'N', 5);
  }

  lemma BusReturns(n: Net, ripper: int, load: Loaders)
    requires var d: Data<Symbol, Pixmap> := NetData(n); Storable(d) && !n.isPin && n.isBus
    ensures Returns(NetData(n), ripper, load)
  {
    hide FieldLine, Fields, ReadBus;
    BusIsRead(n, ripper);
    SingleReturns(NetData(n), ripper, load, 'U', 6);
  }

  lemma PinReturns(n: Net, ripper: int, load: Loaders)
    requires var d: Data<Symbol, Pixmap> := NetData(n); Storable(d) && n.isPin
    ensures Returns(NetData(n), ripper, load)
  {
    hide FieldLine, Fields, ReadPin;
    PinIsRead(n, ripper);
    SingleReturns(NetData(n), ripper, load, 'P', 7);
  }

  // Objects which take up more lines

  lemma TextIsRead(t: Text, rest: seq<string>)
    requires var d: Data<Symbol, Pixmap> := TextData(t); Storable(d)
    ensures
      var d: Data<Symbol, Pixmap> := TextData(t);
      && AreInts(Fields(d, 0), 'T', 9)
      && ReadText(FieldLine(Fields(d, 0)), SplitLines(Payload(d)) + rest) == Parsed(Some(t), rest, 0)
  {
    hide Sscanf, FieldLine, TakeText, Newlines, Least;
    var d: Data<Symbol, Pixmap> := TextData(t);
    TextReturns(t.text, rest);
    NumberOfLines(t.text);
    IntegersReturn(Fields(d, 0), 9);
  }

  lemma PathIsRead(p: Path, rest: seq<string>)
    requires var d: Data<Symbol, Pixmap> := PathData(p); Storable(d)
    ensures
      var d: Data<Symbol, Pixmap> := PathData(p);
      && AreInts(Fields(d, 0), 'H', 13)
      && ReadPath(FieldLine(Fields(d, 0)), SplitLines(Payload(d)) + rest) == Parsed(Some(d), rest, 0)
  {
    hide Sscanf, FieldLine, TakeText, Newlines, Least, LineOf, LineFields, FillOf, FillFields;
    var d: Data<Symbol, Pixmap> := PathData(p);
    var fields := Fields(d, 0);
    LineFieldsReturn(p.line);
    FillFieldsReturn(p.fill);
    assert fields[2..7] == LineFields(p.line) && fields[7..13] == FillFields(p.fill);
    LineIsAt(fields, 2, p.line);
    FillIsAt(fields, 7, p.fill);
    TextReturns(p.pathdata, rest);
    NumberOfLines(p.pathdata);
    IntegersReturn(fields, 13);
  }

  lemma TextObjectReturns(t: Text, load: Loaders)
    requires var d: Data<Symbol, Pixmap> := TextData(t); Storable(d)
    ensures Returns(TextData(t), 0, load)
  {
    hide FieldLine, Fields, ReadText, Payload;
    var d: Data<Symbol, Pixmap> := TextData(t);
    TextIsRead(t, []);
    IntegersReturn(Fields(d, 0), 9);
    forall rest
      ensures ReadObject('T', FieldLine(Fields(d, 0)), SplitLines(Payload(d)) + rest, load) == Parsed(Some(d), rest, 0)
    {
      TextIsRead(t, rest);
    }
  }

  lemma PathReturns(p: Path, load: Loaders)
    requires var d: Data<Symbol, Pixmap> := PathData(p); Storable(d)
    ensures Returns(PathData(p), 0, load)
  {
    hide FieldLine, Fields, ReadPath, Payload;
    var d: Data<Symbol, Pixmap> := PathData(p);
    PathIsRead(p, []);
    IntegersReturn(Fields(d, 0), 13);
    forall rest
      ensures ReadObject('H', FieldLine(Fields(d, 0)), SplitLines(Payload(d)) + rest, load) == Parsed(Some(d), rest, 0)
    {
      PathIsRead(p, rest);
    }
  }

  lemma ComponentIsRead(c: Component<Symbol>, rest: seq<string>, load: Loaders)
    requires
      var d: Data<Symbol, Pixmap> := ComponentData(c);
      Storable(d) && IsWritable(d, load) && (!c.symbol.embedded ==> !load.symbol(c.symbol.basename).embedded)
    ensures
      var d: Data<Symbol, Pixmap> := ComponentData(c);
      var line := FieldLine(Fields(d, 0));
      && IsLine(line) && '\r' !in line && line[0] == 'C'
      && ReadComplex(line, rest, load) == Parsed(Some(Shell(d)), rest, 0)
  {
    hide Sscanf, FieldLine, IsWord, IsSpace;
    var d: Data<Symbol, Pixmap> := ComponentData(c);
    var fields := Fields(d, 0);
    var basename := BaseName(c.symbol);
    assert c.symbol.embedded ==> basename[..8] == "EMBEDDED" && basename[8..] == c.symbol.basename;
    assert !IsSpace('C') by {
      CIsNoSpace();
    }
    LineReturns(fields, [C] + Ints(5) + [S]);
  }

  lemma CIsNoSpace()
    ensures !IsSpace('C')
  {
  }

  lemma ComponentReturns(c: Component<Symbol>, load: Loaders)
    requires var d: Data<Symbol, Pixmap> := ComponentData(c); Storable(d) && IsWritable(d, load)
    ensures Returns(ComponentData(c), 0, load)
  {
    hide FieldLine, Fields, ReadComplex;
    var d: Data<Symbol, Pixmap> := ComponentData(c);
    ComponentIsRead(c, [], load);
    forall rest: seq<string>
      ensures ReadObject('C', FieldLine(Fields(d, 0)), SplitLines(Payload(d)) + rest, load) == Parsed(Some(Shell(d)), rest, 0)
    {
      ComponentIsRead(c, rest, load);
      assert SplitLines("") + rest == rest;
    }
  }

  lemma PixmapLines(p: Pixmap)
    requires p.filename.Some? && IsLine(p.filename.value + "\n")
    ensures SplitLines(PixmapText(p)) == [p.filename.value + "\n"] +
      if p.embedded then EncodedLines(p.data, Some(COLUMNS), Some(DELIMITER)) else []
  {
    hide EncodedLines, Concat, SplitLines;
    var line := p.filename.value + "\n";
    if p.embedded {
      WrittenIsRead(p.data, Some(COLUMNS), Some(DELIMITER));
      SplitFirstLine(line, Concat(EncodedLines(p.data, Some(COLUMNS), Some(DELIMITER))));
    } else {
      SplitFirstLine(line, "");
      SplitNothing();
    }
  }

  lemma PixmapIsRead(p: Pixmap, rest: seq<string>, load: Loaders)
    requires p.filename.Some? && p.filename.value != "" && IsLine(p.filename.value + "\n")
    requires !p.embedded ==> load.pixmap(p.filename) == p
    ensures ReadPixmap(SplitLines(PixmapText(p)) + rest, p.embedded, load) == Parsed(Some(p), rest, 0)
  {
    hide EncodedLines, Concat, SplitLines, Decoding, PixmapText;
    var line := p.filename.value + "\n";
    PixmapLines(p);
    var own := SplitLines(PixmapText(p));
    assert own[0] == line && WithoutNewline(line) == p.filename.value;
    assert (own + rest)[1..] == own[1..] + rest;
    if p.embedded {
      assert '.' in DELIMITER && !IsBase64('.');
      SafeDelimiter(p.data, Some(COLUMNS), DELIMITER);
      LinesReturn(p.data, Some(COLUMNS), Some(DELIMITER), rest);
      assert own[1..] == EncodedLines(p.data, Some(COLUMNS), Some(DELIMITER));
    } else {
      assert own[1..] + rest == rest;
    }
  }

  lemma PictureIsRead(i: Picture<Pixmap>, rest: seq<string>, load: Loaders)
    requires
      var d: Data<Symbol, Pixmap> := PictureData(i);
      Storable(d) && IsWritable(d, load)
    ensures
      var d: Data<Symbol, Pixmap> := PictureData(i);
      && AreInts(Fields(d, 0), 'G', 7)
      && ReadPicture(FieldLine(Fields(d, 0)), SplitLines(Payload(d)) + rest, load) == Parsed(Some(d), rest, 0)
  {
    hide Sscanf, FieldLine, ReadPixmap, SplitLines, PixmapText;
    var d: Data<Symbol, Pixmap> := PictureData(i);
    PixmapIsRead(i.pixmap, rest, load);
    IntegersReturn(Fields(d, 0), 7);
  }

  lemma PictureReturns(i: Picture<Pixmap>, load: Loaders)
    requires var d: Data<Symbol, Pixmap> := PictureData(i); Storable(d) && IsWritable(d, load)
    ensures Returns(PictureData(i), 0, load)
  {
    hide FieldLine, Fields, ReadPicture, Payload;
    var d: Data<Symbol, Pixmap> := PictureData(i);
    PictureIsRead(i, [], load);
    IntegersReturn(Fields(d, 0), 7);
    forall rest
      ensures ReadObject('G', FieldLine(Fields(d, 0)), SplitLines(Payload(d)) + rest, load) == Parsed(Some(d), rest, 0)
    {
      PictureIsRead(i, rest, load);
    }
  }

  /** Every object is read back from its first line and payload. */
  lemma DataReturns(d: Data<Symbol, Pixmap>, ripper: int, load: Loaders)
    requires Storable(d) && IsWritable(d, load) && (!d.NetData? ==> ripper == 0)
    ensures Returns(d, ripper, load)
  {
    hide Returns, IsWritable;
    match d
    case ArcData(a) => ArcReturns(a, load);
    case BoxData(b) => BoxReturns(b, load);
    case CircleData(c) => CircleReturns(c, load);
    case ComponentData(c) => ComponentReturns(c, load);
    case LineData(l) => LineObjectReturns(l, load);
    case NetData(n) =>
      if n.isPin {
        PinReturns(n, ripper, load);
      } else if n.isBus {
        BusReturns(n, ripper, load);
      } else {
        NetReturns(n, ripper, load);
      }
    case PathData(p) => PathReturns(p, load);
    case PictureData(i) => PictureReturns(i, load);
    case TextData(t) => TextObjectReturns(t, load);
  }
}
