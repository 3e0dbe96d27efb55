/** When exactly a schematic or symbol is read as it has been written. */
module PlainExact {
  import opened Wrappers
  import opened ObjectData
  import opened PlainFormat
  import opened PlainText
  import opened PlainLines
  import opened Streams
  import opened Base64
  import opened Drawings
  import opened PlainWrite
  import opened PlainRead
  import opened PlainObjects
  import opened PlainReturn
  import opened PlainRoundTrip
  import opened PlainVersions
  import opened PlainWeights
  import opened PlainReadable

  lemma {:induction false} ObjectsAreComplete(rev: seq<Obj>, objs: seq<Obj>, ripper: RipperDirection)
    requires AreStored(objs)
    ensures IsComplete(ObjectsText(rev, objs, ripper))
    decreases |objs|
  {
    hide ObjectText, IsComplete, IsStored;
    if objs == [] {
      NothingHasWeight();
    } else {
      RestIsStored(objs);
      ObjectIsComplete(rev, objs[0], ripper);
      ObjectsAreComplete(rev, objs[1..], ripper);
      CompleteSum(ObjectText(rev, objs[0], ripper), ObjectsText(rev, objs[1..], ripper));
    }
  }

  lemma ObjectIsComplete(rev: seq<Obj>, o: Obj, ripper: RipperDirection)
    requires IsStored(o)
    ensures IsComplete(ObjectText(rev, o, ripper))
  {
    hide FormatFields, Fields, IsComplete, ContentsText, TextsText;
    var r := if o.data.NetData? then ripper(rev, o.data.net) else 0;
    var line, e, a := FieldLine(Fields(o.data, r)), EmbeddedText(o, ripper), AttachedText(o.attached);
    NothingHasWeight();
    EndsWithNewline(Join(FormatFields(Fields(o.data, r))), "");
    PayloadIsComplete(o.data);
    EndsWithNewline("[\n" + ContentsText(o, ripper), "]");
    EndsWithNewline("{\n" + TextsText(o.attached), "}");
    CompleteSum(line, Payload(o.data));
    CompleteSum(line + Payload(o.data), e);
    CompleteSum(line + Payload(o.data) + e, a);
  }

  lemma EndsWithNewline(s: string, last: string)
    ensures IsComplete(s + (last + "\n")) && IsComplete(s + "\n")
  {
  }

  lemma PayloadIsComplete(d: Data<Symbol, Pixmap>)
    ensures IsComplete(Payload(d))
  {
    hide Concat, EncodedLines, IsComplete;
    NothingHasWeight();
    match d
    case TextData(t) => EndsWithNewline(t.text, "");
    case PathData(p) => EndsWithNewline(p.pathdata, "");
    case PictureData(i) =>
      PixmapDataHaveNoWeight(i.pixmap);
      EndsWithNewline(FileName(i.pixmap), "");
      CompleteSum(FileName(i.pixmap) + "\n",
                  if i.pixmap.embedded then Concat(EncodedLines(i.pixmap.data, Some(COLUMNS), Some(DELIMITER))) else "");
    case _ =>
  }

  lemma VersionHasNoWeight(release: nat, fileformat: nat)
    ensures
      var line := VersionLine(release, fileformat);
      StrippedWeight(line) == 0 && IsComplete(line)
  {
    hide Sscanf, FieldLine, ParseFields, StrippedWeight, IsComplete;
    VersionIsRead(release, fileformat);
    LineReturns([Chr('v'), Int(release), Int(fileformat)], [C, U, U]);
    NoWeight(VersionLine(release, fileformat));
  }

  /** What hasn't got names as they can be read, or has got carriage returns at
      line ends, or pixmaps without a file name, isn't read as it has been
      written: the file isn't heavy enough. */
  lemma ReadIsWritable(release: nat, fileformat: nat, objs: seq<Obj>, ripper: RipperDirection, load: Loaders)
    requires AreStored(objs) && IsHonest(load)
    requires FileContents(VersionLine(release, fileformat) + ObjectsText(objs, objs, ripper), load) == Finished(objs, 0)
    ensures AreWritable(objs, load)
  {
    hide ObjectsText, VersionLine, StrippedWeight, ObjectsWeight, AreWritable, AreNamed, FileContents, IsHonest, IsComplete,
      AreStored;
    var line, text := VersionLine(release, fileformat), ObjectsText(objs, objs, ripper);
    VersionHasNoWeight(release, fileformat);
    ObjectsAreComplete(objs, objs, ripper);
    CompleteSum(line, text);
    FileIsReadable(line + text, load);
    StrippedSum(line, text);
    ObjectsAreHeavy(objs, objs, ripper, load);
  }

  /** Reading a file which has been written with any version numbers in its first
      line gives the same schematic or symbol without any error if and only if no
      object looks different in this format, everything has been written such that
      it can be read, and all embedded symbols survive being placed and taken
      back. */
  lemma AnyVersionExactlyIf(release: nat, fileformat: nat, objs: seq<Obj>, ripper: RipperDirection, load: Loaders)
    requires AreStored(objs) && IsHonest(load)
    ensures (FileContents(VersionLine(release, fileformat) + ObjectsText(objs, objs, ripper), load) == Finished(objs, 0))
       <==> AreCurrent(VersionOf(release, fileformat), objs)
            && AreWritable(objs, load) && forall i :: 0 <= i < |objs| ==> Survives(objs[i])
  {
    hide ObjectsText, VersionLine, FileContents, Survives, IsHonest, AreWritable, AreStored, AreCurrent, VersionOf, RereadAll;
    if FileContents(VersionLine(release, fileformat) + ObjectsText(objs, objs, ripper), load) == Finished(objs, 0) {
      ReadIsWritable(release, fileformat, objs, ripper, load);
    }
    if AreWritable(objs, load) {
      AnyVersionIsRead(release, fileformat, objs, ripper, load);
      RereadExactlyIf(objs);
    }
  }

  /** Reading what has been written gives the same schematic or symbol without
      any error if and only if everything has been written such that it can be
      read, and all embedded symbols survive being placed and taken back. */
  lemma RoundTripExactlyIf(objs: seq<Obj>, ripper: RipperDirection, load: Loaders)
    requires AreStored(objs) && IsHonest(load)
    ensures FileContents(FileText(objs, ripper), load) == Finished(objs, 0) <==>
      AreWritable(objs, load) && forall i :: 0 <= i < |objs| ==> Survives(objs[i])
  {
    hide ObjectsText, FileContents, Survives, IsHonest, AreWritable, AreStored, AreCurrent;
    AnyVersionExactlyIf(RELEASE_VERSION, FILEFORMAT_VERSION, objs, ripper, load);
    AllAreCurrent(objs, VersionOf(RELEASE_VERSION, FILEFORMAT_VERSION));
  }

  // Examples

  /** What is loaded if symbols and pixmaps are only referred to. */
  const MOCK_UPS := Loaders(name => Symbol(name, Missing, false), name => Pixmap(name, [], false))

  lemma MockUpsAreHonest()
    ensures IsHonest(MOCK_UPS)
  {
  }

  lemma IsLost(o: Obj, ripper: RipperDirection, load: Loaders)
    requires IsStored(o) && IsHonest(load) && !IsWritableObject(o, load)
    ensures AreStored([o]) && FileContents(FileText([o], ripper), load) != Finished([o], 0)
  {
    hide FileText, FileContents, Survives, IsHonest, IsWritableObject, IsStored;
    assert [o][0] == o;
    assert AreStored([o]) && !AreWritable([o], load);
    RoundTripExactlyIf([o], ripper, load);
  }

  function PictureOf(filename: Option<string>): Obj {
    Obj(PictureData(Picture(0, 0, 100, 100, 0, false, Pixmap(filename, [1, 2, 3], true))), [])
  }

  /** An embedded pixmap without a file name, with an empty one, or with one which
      takes up two lines or ends with a carriage return. */
  lemma PixmapNamesAreLost(filename: Option<string>, ripper: RipperDirection, load: Loaders)
    requires IsHonest(load)
    requires filename in {None, Some(""), Some("a\nb"), Some("a\r")}
    ensures
      var o := PictureOf(filename);
      AreStored([o]) && FileContents(FileText([o], ripper), load) != Finished([o], 0)
  {
    hide FileText, FileContents, IsHonest;
    if filename == Some("a\nb") {
      assert (filename.value + "\n")[1] == '\n';
    } else if filename == Some("a\r") {
      assert (filename.value + "\n")[2] == '\n' && (filename.value + "\n")[1] == '\r';
    }
    IsLost(PictureOf(filename), ripper, load);
  }

  function ComponentOf(symbol: Symbol): Obj {
    Obj(ComponentData(Component(0, 0, true, 0, false, symbol)), [])
  }

  /** A symbol whose name has got a blank, an embedded one as well as one which
      isn't embedded, and one which isn't embedded but whose name looks as if it
      were. */
  lemma SymbolNamesAreLost(symbol: Symbol, ripper: RipperDirection, load: Loaders)
    requires IsHonest(load)
    requires symbol in {Symbol("a b.sym", Missing, false), Symbol("a b.sym", Contents([]), true),
                        Symbol("EMBEDDEDa.sym", Missing, false)}
    ensures
      var o := ComponentOf(symbol);
      AreStored([o]) && FileContents(FileText([o], ripper), load) != Finished([o], 0)
  {
    hide FileText, FileContents, IsHonest;
    assert "a b.sym"[1] == ' ' && ("EMBEDDED" + "a b.sym")[9] == ' ' && IsSpace(' ');
    assert "EMBEDDEDa.sym"[..8] == "EMBEDDED";
    IsLost(ComponentOf(symbol), ripper, load);
  }

  /** A text which ends with a carriage return. */
  lemma ReturnIsLost(ripper: RipperDirection, load: Loaders)
    requires IsHonest(load)
    ensures
      var o := Obj(TextData(Text(0, 0, 3, 10, true, 0, 0, 0, "a\r")), []);
      AreStored([o]) && FileContents(FileText([o], ripper), load) != Finished([o], 0)
  {
    hide FileText, FileContents, IsHonest;
    var o := Obj(TextData(Text(0, 0, 3, 10, true, 0, 0, 0, "a\r")), []);
    assert ("a\r" + "\n")[2] == '\n' && ("a\r" + "\n")[1] == '\r';
    IsLost(o, ripper, load);
  }
}
