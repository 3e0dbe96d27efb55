/** Reading a file which has been written, and what becomes of embedded symbols
    by being placed and taken back. */
module PlainRoundTrip {
  import opened Wrappers
  import opened Sequences
  import opened ObjectData
  import opened PlainFormat
  import opened PlainText
  import opened PlainLines
  import opened Streams
  import opened Drawings
  import opened PlainWrite
  import opened PlainRead
  import opened PlainReturn

  /** An object as it is after writing and reading. */
  function Reread(o: Obj): Obj
    requires IsStored(o)
  {
    FinishObject(Raw(o))
  }

  function RereadAll(objs: seq<Obj>): seq<Obj>
    requires AreStored(objs)
  {
    FinishAll(RawAll(objs))
  }

  lemma {:induction false} NoSymbolIsMissing(objs: seq<Obj>)
    requires forall i :: 0 <= i < |objs| ==> IsEmbedded(objs[i]) ==> HasContents(objs[i])
    ensures MissingSymbols(objs) == 0
  {
    if objs != [] {
      assert forall i :: 0 <= i < |objs[1..]| ==> objs[1..][i] == objs[i + 1];
      NoSymbolIsMissing(objs[1..]);
    }
  }

  lemma FileLines(line: string, objs: seq<Obj>, ripper: RipperDirection)
    requires IsLine(line) && IsClean(line)
    requires AreStored(objs) && IsClean(ObjectsText(objs, objs, ripper))
    ensures StripReturns(SplitLines(line + ObjectsText(objs, objs, ripper))) ==
      [line] + SplitLines(ObjectsText(objs, objs, ripper))
  {
    hide ObjectsText, StripReturns, SplitLines;
    CleanSum(line, ObjectsText(objs, objs, ripper));
    SplitFirstLine(line, ObjectsText(objs, objs, ripper));
    NothingToStrip(line + ObjectsText(objs, objs, ripper));
  }

  /** The first line of a file in a certain format. */
  function VersionLine(release: nat, fileformat: nat): string {
    FieldLine([Chr('v'), Int(release), Int(fileformat)])
  }

  lemma VersionIsRead(release: nat, fileformat: nat)
    ensures IsLine(VersionLine(release, fileformat)) && IsClean(VersionLine(release, fileformat))
    ensures VersionLine(release, fileformat)[0] == 'v'
    ensures ParseVersion(VersionLine(release, fileformat)) == Some(VersionOf(release, fileformat))
  {
    hide Sscanf, FieldLine, IsClean;
    LineReturns([Chr('v'), Int(release), Int(fileformat)], [C, U, U]);
    LineIsClean(VersionLine(release, fileformat));
  }

  /** A file in any format in which all objects look as they do in current files:
      reading it reports no error and gives the same objects in the same order,
      except that symbols have been placed and taken back. */
  lemma VersionReturns(release: nat, fileformat: nat, objs: seq<Obj>, ripper: RipperDirection, load: Loaders)
    requires AreStored(objs) && AreWritable(objs, load)
    requires AreCurrent(VersionOf(release, fileformat), objs)
    ensures FileContents(VersionLine(release, fileformat) + ObjectsText(objs, objs, ripper), load)
      == Finished(RereadAll(objs), 0)
  {
    hide VersionLine, ObjectsText, ReadItems, RawAll, AfterAll, AreStored, AreWritable, VersionOf, ParseVersion, AreCurrent,
      RereadAll;
    var line := VersionLine(release, fileformat);
    var st := START.(format := VersionOf(release, fileformat));
    VersionIsRead(release, fileformat);
    var lines := SplitLines(ObjectsText(objs, objs, ripper));
    ObjectsRead(st, objs, objs, ripper, [], load);
    FileLines(line, objs, ripper);
    ReadNextItem(START, line, lines, load);
    VersionItem(line, VersionOf(release, fileformat), lines, load);
    assert lines + [] == lines;
    AfterAllAppends(st, objs);
    AtTheEnd(AfterAll(st, objs), objs, load);
  }

  lemma VersionItem(line: string, format: FileFormat, rest: seq<string>, load: Loaders)
    requires IsLine(line) && line[0] == 'v' && ParseVersion(line) == Some(format)
    ensures ReadItem(START, line, rest, load) == Step(START.(format := format), rest)
    ensures IsGood(START.(format := format))
  {
    hide ParseVersion;
  }

  /** In particular, this is true for what has been written. */
  lemma FileReturns(objs: seq<Obj>, ripper: RipperDirection, load: Loaders)
    requires AreStored(objs) && AreWritable(objs, load)
    ensures FileContents(FileText(objs, ripper), load) == Finished(RereadAll(objs), 0)
  {
    hide ObjectsText, FileContents, RereadAll, AreStored, AreWritable, IsCurrent;
    AllAreCurrent(objs, CURRENT);
    VersionReturns(RELEASE_VERSION, FILEFORMAT_VERSION, objs, ripper, load);
  }

  /** In formats since the last change, all objects look as they do in current
      files. */
  lemma AllAreCurrent(objs: seq<Obj>, format: FileFormat)
    requires format.release > VERSION_20030921 && format.fileformat >= 1
    ensures AreCurrent(format, objs)
    decreases HeightAll(objs), 1
  {
    forall i | 0 <= i < |objs|
      ensures IsCurrentObject(format, objs[i])
    {
      ObjectIsCurrent(objs[i], format);
    }
  }

  lemma ObjectIsCurrent(o: Obj, format: FileFormat)
    requires format.release > VERSION_20030921 && format.fileformat >= 1
    ensures IsCurrentObject(format, o)
    decreases Height(o), 0
  {
    if HasContents(o) {
      AllAreCurrent(Inner(o), format);
    }
  }

  lemma AtTheEnd(t: State, objs: seq<Obj>, load: Loaders)
    requires IsGood(t) && AreStored(objs) && AreCurrent(t.format, objs)
    requires t.objs == [] + RawAll(objs) && t.errors == 0
    ensures ReadItems(t, [], load) == Finished(RereadAll(objs), 0)
  {
    assert [] + RawAll(objs) == RawAll(objs);
    NoSymbolIsMissing(RawAll(objs));
    PinsAreCurrent(t.format, objs);
  }

  lemma PinsAreCurrent(format: FileFormat, objs: seq<Obj>)
    requires AreStored(objs) && AreCurrent(format, objs)
    ensures HasPin(RawAll(objs)) ==> HasEnhancedPins(format)
  {
    if HasPin(RawAll(objs)) {
      var i :| 0 <= i < |objs| && RawAll(objs)[i].data.NetData? && RawAll(objs)[i].data.net.isPin;
      assert objs[i].data == RawAll(objs)[i].data;
      assert IsCurrentObject(format, objs[i]);
    }
  }

  // When nothing changes

  /** Whether an attribute inside a symbol is as visible as the attribute of the
      same name which is attached to the component, if there is any. */
  predicate VisibilityAgrees(d: Data<Symbol, Pixmap>, texts: seq<Text>) {
    d.TextData? && AttributeName(d.text.text).Some? ==>
      var v := VisibilityOf(texts, AttributeName(d.text.text).value);
      v.Some? ==> d.text.visibility == v.value
  }

  lemma UnhideChangesNothingIf(d: Data<Symbol, Pixmap>, texts: seq<Text>)
    ensures Unhide(d, texts) == d <==> VisibilityAgrees(d, texts)
  {
  }

  /** Whether an object looks the same where it is placed, with its texts and, if
      it has got an embedded symbol, with everything which is placed by this. */
  ghost predicate IsFixed(y: Obj, q: Placement)
    requires IsStored(y) && AngleIsValid(q.angle)
    decreases Height(y)
  {
    && Transform(y.data, q) == y.data
    && (forall i :: 0 <= i < |y.attached| ==> TransformText(y.attached[i], q) == y.attached[i])
    && (IsEmbedded(y) ==>
          && HasContents(y)
          && forall i :: 0 <= i < |Inner(y)| ==>
               (InnerIsStored(y); IsFixed(Inner(y)[i], PlacementOf(y.data.component))))
  }

  /** The condition for a symbol which is nested in another one.  Its contents
      are placed twice, but unlike those of the outer symbol, they aren't put
      back to their original places. */
  ghost predicate NestedIsInvariant(x: Obj, p: Placement)
    requires IsStored(x) && AngleIsValid(p.angle)
  {
    IsEmbedded(x) ==>
      && HasContents(x)
      && forall i :: 0 <= i < |Inner(x)| ==>
           (InnerIsStored(x);
            TwiceIsValid(x, p);
            IsFixed(Inner(x)[i], Compose(p, PlacementOf(x.data.component))))
  }

  lemma TwiceIsValid(x: Obj, p: Placement)
    requires IsStored(x) && AngleIsValid(p.angle) && x.data.ComponentData?
    ensures
      var q := Compose(p, PlacementOf(x.data.component));
      AngleIsValid(q.angle) && PlaceObject(x, p).data.ComponentData? &&
      PlacementOf(PlaceObject(x, p).data.component) == q
  {
    ComposeAngles(p, PlacementOf(x.data.component));
    hide Place, TurnAngle;
  }

  lemma TextsAreFixed(texts: seq<Text>, q: Placement)
    requires AngleIsValid(q.angle)
    ensures PlaceTexts(texts, q) == texts <==> forall i :: 0 <= i < |texts| ==> TransformText(texts[i], q) == texts[i]
  {
    hide TransformText;
    var r := PlaceTexts(texts, q);
    assert r == texts <==> forall i :: 0 <= i < |texts| ==> r[i] == texts[i];
  }

  /** An object is read as it is exactly if it looks the same where it has been
      placed. */
  lemma RawIsFixed(y: Obj, q: Placement)
    requires IsStored(y) && AngleIsValid(q.angle)
    ensures IsStored(PlaceObject(y, q))
    ensures Raw(PlaceObject(y, q)) == y <==> IsFixed(y, q)
    decreases Height(y), 2
  {
    hide Transform, TransformText, IsStored, PlaceTexts, RawAll, PlacedContents;
    PlacedIsStored(y, q);
    TextsAreFixed(y.attached, q);
    if IsEmbedded(y) {
      EmbeddedIsFixed(y, q);
    }
  }

  lemma EmbeddedIsFixed(y: Obj, q: Placement)
    requires IsStored(y) && AngleIsValid(q.angle) && IsEmbedded(y) && IsStored(PlaceObject(y, q))
    requires PlaceTexts(y.attached, q) == y.attached
      <==> forall i :: 0 <= i < |y.attached| ==> TransformText(y.attached[i], q) == y.attached[i]
    ensures Raw(PlaceObject(y, q)) == y <==> IsFixed(y, q)
    decreases Height(y), 1
  {
    hide TransformText, IsStored, PlaceTexts, RawAll, PlacedContents, Place, TurnAngle;
    var z := PlaceObject(y, q);
    if HasContents(y) && z == y {
      InnerIsStored(y);
      ContentsAreFixed(y, PlacementOf(y.data.component));
      ContentsAreInner(y);
    }
  }

  lemma ContentsAreInner(y: Obj)
    requires IsStored(y) && HasContents(y) && AngleIsValid(y.data.component.angle)
    ensures AreStored(Inner(y)) && AreStored(PlaceAll(Inner(y), PlacementOf(y.data.component)))
    ensures PlacedContents(y) == PlaceAll(Inner(y), PlacementOf(y.data.component))
  {
    hide Transform;
    PlacedAreStored(Inner(y), PlacementOf(y.data.component));
  }

  /** The same for all objects in a symbol. */
  lemma ContentsAreFixed(x: Obj, q: Placement)
    requires IsStored(x) && HasContents(x) && AngleIsValid(q.angle) && AreStored(Inner(x))
    ensures AreStored(PlaceAll(Inner(x), q))
    ensures RawAll(PlaceAll(Inner(x), q)) == Inner(x)
      <==> forall i :: 0 <= i < |Inner(x)| ==> (InnerIsStored(x); IsFixed(Inner(x)[i], q))
    decreases Height(x), 0
  {
    hide Transform, PlaceTexts, PlaceObject, Raw, IsFixed, IsStored;
    var objs := Inner(x);
    PlacedAreStored(objs, q);
    var r := RawAll(PlaceAll(objs, q));
    forall i | 0 <= i < |objs|
      ensures IsStored(objs[i])
      ensures r[i] == objs[i] <==> IsFixed(objs[i], q)
    {
      RawIsFixed(objs[i], q);
    }
    assert r == objs <==> forall i :: 0 <= i < |objs| ==> r[i] == objs[i];
  }

  /** The condition for an object inside an embedded symbol. */
  ghost predicate InnerSurvives(x: Obj, o: Obj)
    requires IsStored(x) && o.data.ComponentData? && AngleIsValid(o.data.component.angle)
  {
    && (x.data.ArcData? ==> 0 <= x.data.arc.startangle < 360)
    && VisibilityAgrees(x.data, o.attached)
    && NestedIsInvariant(x, PlacementOf(o.data.component))
  }

  /** The condition for an object of the schematic or symbol. */
  ghost predicate Survives(o: Obj)
    requires IsStored(o)
  {
    IsEmbedded(o) ==>
      HasContents(o) && (InnerIsStored(o); forall i :: 0 <= i < |Inner(o)| ==> InnerSurvives(Inner(o)[i], o))
  }

  lemma InnerIsStored(o: Obj)
    requires IsStored(o) && HasContents(o)
    ensures AreStored(Inner(o)) && AngleIsValid(o.data.component.angle)
  {
  }

  /** An object inside an embedded symbol as it is after writing and reading. */
  function RereadInner(x: Obj, o: Obj): Obj
    requires IsStored(x) && o.data.ComponentData? && AngleIsValid(o.data.component.angle)
  {
    var p := PlacementOf(o.data.component);
    PlacedIsStored(x, p);
    var y := UnplaceObject(Raw(PlaceObject(x, p)), p);
    Obj(Unhide(y.data, o.attached), y.attached)
  }

  lemma {:induction false} TextsReturn(texts: seq<Text>, p: Placement)
    requires AngleIsValid(p.angle) && forall i :: 0 <= i < |texts| ==> TextIsStored(texts[i])
    ensures UnplaceTexts(PlaceTexts(texts, p), p) == texts
  {
    forall i | 0 <= i < |texts|
      ensures UnplaceTexts(PlaceTexts(texts, p), p)[i] == texts[i]
    {
      assert TextIsStored(texts[i]);
      UntransformUndoesText(texts[i], p);
    }
  }

  /** The data of an object inside a symbol which isn't embedded itself. */
  lemma PlainInnerReturns(x: Obj, o: Obj)
    requires IsStored(x) && o.data.ComponentData? && AngleIsValid(o.data.component.angle)
    requires !IsEmbedded(x)
    ensures RereadInner(x, o) == Obj(Unhide(ReduceAngle(x.data), o.attached), x.attached)
  {
    hide Transform, Untransform, ReduceAngle, TransformText, UntransformText;
    var p := PlacementOf(o.data.component);
    PlacedIsStored(x, p);
    UntransformUndoes(x.data, p);
    TextsReturn(x.attached, p);
  }

  lemma ReduceChangesNothingIf(d: Data<Symbol, Pixmap>, texts: seq<Text>)
    ensures Unhide(ReduceAngle(d), texts) == d <==>
      (d.ArcData? ==> 0 <= d.arc.startangle < 360) && VisibilityAgrees(d, texts)
  {
    UnhideChangesNothingIf(d, texts);
  }

  /** A nested symbol returns to its place, but its contents don't. */
  lemma NestedReturns(x: Obj, o: Obj)
    requires IsStored(x) && o.data.ComponentData? && AngleIsValid(o.data.component.angle)
    requires IsEmbedded(x)
    ensures
      var p := PlacementOf(o.data.component);
      IsStored(PlaceObject(x, p)) &&
      var c := x.data.component;
      var contents := if HasContents(x) then RawAll(PlacedContents(PlaceObject(x, p))) else [];
      RereadInner(x, o) == Obj(ComponentData(c.(symbol := c.symbol.(contents := Contents(contents)))), x.attached)
  {
    var p := PlacementOf(o.data.component);
    PlacedIsStored(x, p);
    var c := x.data.component;
    PointReturns(c.x, c.y, p);
    AngleReturns(c.angle, p);
    TextsReturn(x.attached, p);
    hide Place, Unplace, TurnAngle, TurnBackAngle, TransformText, UntransformText, RawAll, PlacedContents;
  }

  lemma NestedIsRead(x: Obj, p: Placement)
    requires IsStored(x) && AngleIsValid(p.angle) && IsEmbedded(x)
    ensures IsStored(PlaceObject(x, p))
    ensures NestedIsInvariant(x, p)
      <==> HasContents(x) && RawAll(PlacedContents(PlaceObject(x, p))) == Inner(x)
  {
    hide Transform, IsFixed, Raw, IsStored, PlaceTexts;
    PlacedIsStored(x, p);
    if HasContents(x) {
      InnerIsStored(x);
      TwiceIsValid(x, p);
      ContentsAreFixed(x, Compose(p, PlacementOf(x.data.component)));
      PlacedHasContents(x, p);
    }
  }

  lemma PlacedHasContents(x: Obj, p: Placement)
    requires IsStored(x) && AngleIsValid(p.angle) && HasContents(x) && IsStored(PlaceObject(x, p))
    ensures HasContents(PlaceObject(x, p)) && Inner(PlaceObject(x, p)) == Inner(x)
    ensures PlaceObject(x, p).data.ComponentData? && AngleIsValid(PlaceObject(x, p).data.component.angle)
    ensures PlacedContents(PlaceObject(x, p)) == PlaceAll(Inner(x), PlacementOf(PlaceObject(x, p).data.component))
  {
    hide Place, TurnAngle;
    ContentsAreInner(PlaceObject(x, p));
  }

  lemma InnerSurvivesExactlyIf(x: Obj, o: Obj)
    requires IsStored(x) && o.data.ComponentData? && AngleIsValid(o.data.component.angle)
    ensures RereadInner(x, o) == x <==> InnerSurvives(x, o)
  {
    hide RereadInner, RawAll, PlacedContents, PlaceObject;
    if IsEmbedded(x) {
      NestedReturns(x, o);
      NestedIsRead(x, PlacementOf(o.data.component));
    } else {
      PlainInnerReturns(x, o);
      ReduceChangesNothingIf(x.data, o.attached);
    }
  }

  /** The contents of an embedded symbol after writing and reading. */
  lemma RereadContents(o: Obj)
    requires IsStored(o) && IsEmbedded(o) && HasContents(o)
    ensures
      var r := Reread(o);
      && HasContents(r) && |Inner(r)| == |Inner(o)|
      && r == FillSymbol(o, Inner(r))
      && forall i :: 0 <= i < |Inner(o)| ==> Inner(r)[i] == RereadInner(Inner(o)[i], o)
  {
    hide Transform, Untransform, Unhide, PlaceTexts, UnplaceTexts;
    var placed := PlacedContents(o);
    var p := PlacementOf(o.data.component);
    assert forall i :: 0 <= i < |placed| ==> placed[i] == PlaceObject(Inner(o)[i], p);
  }

  lemma SurvivesExactlyIf(o: Obj)
    requires IsStored(o)
    ensures Reread(o) == o <==> Survives(o)
  {
    hide RereadInner, InnerSurvives;
    if IsEmbedded(o) && HasContents(o) {
      hide Reread;
      RereadContents(o);
      var r := Reread(o);
      forall i | 0 <= i < |Inner(o)|
        ensures Inner(r)[i] == Inner(o)[i] <==> InnerSurvives(Inner(o)[i], o)
      {
        InnerSurvivesExactlyIf(Inner(o)[i], o);
      }
      SameContents(o, Inner(r));
    }
  }

  lemma SameContents(o: Obj, objs: seq<Obj>)
    requires HasContents(o)
    ensures FillSymbol(o, objs) == o <==> objs == Inner(o)
  {
  }

  /** If everything has been written such that it can be read, reading it gives the
      same schematic or symbol, with all objects, their data, their order, and the
      texts attached to them, if and only if each object survives. */
  lemma WritableReturnExactlyIf(objs: seq<Obj>, ripper: RipperDirection, load: Loaders)
    requires AreStored(objs) && AreWritable(objs, load)
    ensures FileContents(FileText(objs, ripper), load) == Finished(objs, 0) <==>
      forall i :: 0 <= i < |objs| ==> Survives(objs[i])
  {
    hide FileText, FileContents, Survives, RereadAll;
    FileReturns(objs, ripper, load);
    RereadExactlyIf(objs);
  }

  lemma RereadExactlyIf(objs: seq<Obj>)
    requires AreStored(objs)
    ensures RereadAll(objs) == objs <==> forall i :: 0 <= i < |objs| ==> Survives(objs[i])
  {
    hide Survives;
    var r := RereadAll(objs);
    forall i | 0 <= i < |objs|
      ensures r[i] == objs[i] <==> Survives(objs[i])
    {
      SurvivesExactlyIf(objs[i]);
    }
    hide Reread;
  }

  /** Such a schematic without embedded symbols is always read back unchanged. */
  lemma NothingEmbedded(objs: seq<Obj>, ripper: RipperDirection, load: Loaders)
    requires AreStored(objs) && AreWritable(objs, load)
    requires forall i :: 0 <= i < |objs| ==> !IsEmbedded(objs[i])
    ensures FileContents(FileText(objs, ripper), load) == Finished(objs, 0)
  {
    hide FileText, FileContents;
    WritableReturnExactlyIf(objs, ripper, load);
  }

  // Examples of symbols which change

  const SOLID := LineAttr(10, 0, 0, 0, 0)

  function EmbeddedComponent(x: Obj, texts: seq<Text>): Obj {
    Obj(ComponentData(Component(0, 0, true, 90, false, Symbol("a.sym", Contents([x]), true))), texts)
  }

  function Attribute(text: string, visibility: bool): Text {
    Text(0, 0, 3, 10, visibility, 0, 0, 0, text)
  }

  lemma ComponentIsStored(x: Obj, texts: seq<Text>)
    requires IsStored(x) && forall i :: 0 <= i < |texts| ==> TextIsStored(texts[i])
    ensures
      var o := EmbeddedComponent(x, texts);
      IsStored(o) && IsEmbedded(o) && HasContents(o) && Inner(o) == [x]
  {
  }

  lemma DoesntSurvive(x: Obj, texts: seq<Text>)
    requires IsStored(x) && IsStored(EmbeddedComponent(x, texts))
    requires !InnerSurvives(x, EmbeddedComponent(x, texts))
    ensures !Survives(EmbeddedComponent(x, texts))
  {
    hide InnerSurvives;
    var o := EmbeddedComponent(x, texts);
    assert Inner(o)[0] == x;
  }

  /** The start angle of an arc is reduced to less than a full turn. */
  lemma StartAngleIsReduced()
    ensures
      var o := EmbeddedComponent(Obj(ArcData(Arc(0, 0, 100, 400, 90, 3, SOLID)), []), []);
      IsStored(o) && !Survives(o)
  {
    var x := Obj(ArcData(Arc(0, 0, 100, 400, 90, 3, SOLID)), []);
    ComponentIsStored(x, []);
    DoesntSurvive(x, []);
  }

  /** An attribute which is attached to the component changes the visibility of
      the attribute which the symbol itself has. */
  lemma InheritedAttributeIsUnhidden()
    ensures
      var o := EmbeddedComponent(Obj(TextData(Attribute("a=c", false)), []), [Attribute("a=b", true)]);
      IsStored(o) && !Survives(o)
  {
    var texts := [Attribute("a=b", true)];
    var x := Obj(TextData(Attribute("a=c", false)), []);
    NameIsA('b');
    NameIsA('c');
    hide AttributeName, Transform;
    ComponentIsStored(x, texts);
    assert !VisibilityAgrees(x.data, texts);
    DoesntSurvive(x, texts);
  }

  lemma NameIsA(c: char)
    requires c != ' '
    ensures AttributeName(['a', '=', c]) == Some("a")
  {
    var s := ['a', '=', c];
    assert s[1..][0] == '=' && IndexOfEquals(s[1..]) == 0;
    assert IndexOfEquals(s) == 1;
    assert s[..1] == "a";
  }

  /** An embedded symbol without contents is read as an empty one. */
  lemma MissingContentsAreFilled()
    ensures
      var c := Component(0, 0, true, 0, false, Symbol("a.sym", Missing, true));
      var o := Obj(ComponentData(c), []);
      IsStored(o) && Reread(o) == Obj(ComponentData(c.(symbol := Symbol("a.sym", Contents([]), true))), []) && !Survives(o)
  {
  }

  /** The contents of a nested symbol stay where they have been placed. */
  lemma NestedSymbolIsTurned()
    ensures
      var x := EmbeddedComponent(Obj(LineData(Line(0, 0, 100, 0, 3, SOLID)), []), []);
      var o := EmbeddedComponent(x, []);
      IsStored(o) && !Survives(o)
  {
    var l := Obj(LineData(Line(0, 0, 100, 0, 3, SOLID)), []);
    var x := EmbeddedComponent(l, []);
    ComponentIsStored(l, []);
    ComponentIsStored(x, []);
    TurnedTwice(l);
    DoesntSurvive(x, []);
  }

  lemma TurnedTwice(l: Obj)
    requires IsStored(l) && l.data.LineData? && l.data.line.width == 100
    requires IsStored(EmbeddedComponent(l, []))
    ensures !NestedIsInvariant(EmbeddedComponent(l, []), Placement(0, 0, 90, false))
  {
    hide IsStored, Compose, IsFixed, EmbeddedComponent;
    var x := EmbeddedComponent(l, []);
    var p := Placement(0, 0, 90, false);
    NestedComponent(l);
    TwoQuarters(p);
    TurnedLine(l);
    assert Inner(x)[0] == l;
  }

  lemma NestedComponent(l: Obj)
    ensures
      var x := EmbeddedComponent(l, []);
      && x.data.ComponentData? && IsEmbedded(x) && HasContents(x) && Inner(x) == [l]
      && PlacementOf(x.data.component) == Placement(0, 0, 90, false)
  {
  }

  lemma TwoQuarters(p: Placement)
    requires p == Placement(0, 0, 90, false)
    ensures Compose(p, p) == Placement(0, 0, 180, false)
  {
  }

  lemma TurnedLine(l: Obj)
    requires IsStored(l) && l.data.LineData? && l.data.line.width == 100
    ensures !IsFixed(l, Placement(0, 0, 180, false))
  {
    hide IsStored;
    assert Transform(l.data, Placement(0, 0, 180, false)).line.width == -100;
  }
}
