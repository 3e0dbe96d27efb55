/** Reading a file line by line. */
module PlainReadFile {
  import opened Wrappers
  import opened Sequences
  import opened ObjectData
  import opened PlainFormat
  import opened PlainText
  import opened Streams
  import opened Base64
  import Base64Decoding
  import opened Drawings
  import opened PlainRead

  // Objects which take up more lines

  /** Read a number of lines, or all that are left. */
  method ReadLinesOfText(f: Input, n: int) returns (text: string, complete: bool)
    modifies f
    ensures complete <==> n <= |old(f.lines)|
    ensures text == TakeText(old(f.lines), n)
    ensures f.lines == old(f.lines)[Least(n, |old(f.lines)|)..]
  {
    ghost var lines := f.lines;
    text := "";
    var i := 0;
    while i < n
      invariant i <= |lines| && (if n >= 0 then i <= n else i == 0)
      invariant f.lines == lines[i..] && text == Concat(lines[..i])
    {
      var line := f.Next();
      if line.None? {
        assert |lines[i..]| == 0;
        break;
      }
      ConcatSplits(lines[..i], [lines[i]]);
      assert lines[..i + 1] == lines[..i] + [lines[i]] && Concat([lines[i]]) == lines[i] + "";
      text := text + line.value;
      i := i + 1;
    }
    complete := i >= n;
    assert i == Least(n, |lines|) && lines[i..] == f.lines;
    if text != "" && text[|text| - 1] == '\n' {
      text := text[..|text| - 1];
    }
  }

  method ReadTextFrom(line: string, f: Input) returns (text: Option<Text>, errors: nat)
    modifies f
    ensures Parsed(text, f.lines, errors) == ReadText(line, old(f.lines))
  {
    var r := Sscanf(line, [C] + Ints(9));
    if r.None? {
      return None, 1;
    }
    var v := r.value;
    var n := v[9].n;
    errors := if n <= 0 then 1 else 0;
    var s, complete := ReadLinesOfText(f, n);
    if !complete {
      errors := errors + 1;
    }
    text := Some(Text(v[1].n, v[2].n, FixColor(v[3].n), v[4].n, v[5].n != 0, v[6].n, FixAngle(v[7].n),
                      FixAlignment(v[8].n), s));
  }

  method ReadPathFrom(line: string, f: Input) returns (data: Option<Data<Symbol, Pixmap>>, errors: nat)
    modifies f
    ensures Parsed(data, f.lines, errors) == ReadPath(line, old(f.lines))
  {
    var r := Sscanf(line, [C] + Ints(13));
    if r.None? {
      return None, 1;
    }
    var v := r.value;
    errors := 0;
    var s, complete := ReadLinesOfText(f, v[13].n);
    if !complete {
      errors := 1;
    }
    data := Some(PathData(Path(s, FixColor(v[1].n), LineOf(v, 2), FillOf(v, 7))));
  }

  /** An exception is raised if an embedded pixmap contains a character which
      isn't Latin-1, or if a loaded pixmap claims to be embedded. */
  method ReadPixmapFrom(f: Input, embedded: bool, load: Loaders)
    returns (pixmap: Option<Pixmap>, errors: nat, raised: bool)
    modifies f
    ensures (if raised then Raised else Parsed(pixmap, f.lines, errors)) == ReadPixmap(old(f.lines), embedded, load)
  {
    var filename: Option<string> := Some("");
    errors, raised, pixmap := 0, false, None;
    var line := f.Next();
    if line.None? {
      errors := 1;
    } else {
      var name := WithoutNewline(line.value);
      filename := if name == "" then None else Some(name);
    }
    if !embedded {
      var p := load.pixmap(filename);
      return Some(p), errors, p.embedded;
    }
    var d := Base64Decoding.Decode(f, Some("."));
    match d
    case Decoded(data) => pixmap := Some(Pixmap(filename, data, true));
    case DecodingError =>
      pixmap := Some(Pixmap(filename, [], true));
      errors := errors + 1;
    case IndexError => raised := true;
  }

  method ReadPictureFrom(line: string, f: Input, load: Loaders)
    returns (data: Option<Data<Symbol, Pixmap>>, errors: nat, raised: bool)
    modifies f
    ensures (if raised then Raised else Parsed(data, f.lines, errors)) == ReadPicture(line, old(f.lines), load)
  {
    hide ReadPixmap;
    var r := Sscanf(line, [C] + Ints(7));
    if r.None? {
      return None, 1, false;
    }
    var v := r.value;
    var pixmap;
    pixmap, errors, raised := ReadPixmapFrom(f, v[7].n == 1, load);
    if pixmap.Some? {
      data := Some(PictureData(Picture(v[1].n, v[2].n, v[3].n, v[4].n, FixAngle(v[5].n), v[6].n == 1, pixmap.value)));
    } else {
      data := None;
    }
  }

  /** Read an object from its first line and as many further lines as it takes
      up. */
  method ReadObjectFrom(line: string, f: Input, load: Loaders)
    returns (data: Option<Data<Symbol, Pixmap>>, errors: nat, raised: bool)
    requires line != "" && IsObjectType(line[0])
    modifies f
    ensures (if raised then Raised else Parsed(data, f.lines, errors)) ==
      ReadObject(line[0], line, old(f.lines), load)
  {
    hide ReadText, ReadPath, ReadPicture, ReadLineObject, ReadNet, ReadBus, ReadBox, ReadCircle, ReadPin, ReadArc;
    var c := line[0];
    raised := false;
    if c == 'T' {
      var text;
      text, errors := ReadTextFrom(line, f);
      data := if text.Some? then Some(TextData(text.value)) else None;
    } else if c == 'H' {
      data, errors := ReadPathFrom(line, f);
    } else if c == 'G' {
      data, errors, raised := ReadPictureFrom(line, f, load);
    } else {
      match ReadObject(c, line, f.lines, load)
      case Parsed(d, _, e) => data, errors := d, e;
      case Raised => data, errors, raised := None, 0, true;
    }
  }

  // Attribute lists

  /** What has been read already, put in front of what is read later. */
  function PutBefore(texts: seq<Text>, errors: nat, a: Attached): Attached {
    if a.Failed? then a else Attached(texts + a.texts, a.rest, errors + a.errors)
  }

  /** Read an attribute list up to the end marker. */
  method ReadAttachedFrom(f: Input, format: FileFormat) returns (texts: seq<Text>, errors: nat, failure: Option<Outcome>)
    modifies f
    ensures (if failure.Some? then Failed(failure.value) else Attached(texts, f.lines, errors)) ==
      ReadAttached(format, old(f.lines))
  {
    ghost var lines := f.lines;
    texts, errors, failure := [], 0, None;
    while true
      invariant PutBefore(texts, errors, ReadAttached(format, f.lines)) == ReadAttached(format, lines)
      decreases |f.lines|
    {
      hide ReadText, TextIsValid, IsCurrent;
      var line := f.Next();
      if line.None? {
        errors := errors + 1;
        break;
      }
      if line.value == "" {
        continue;
      }
      if line.value[0] == '}' {
        break;
      }
      if line.value[0] != 'T' {
        errors := errors + 1;
        continue;
      }
      if !IsCurrent(format, 'T') {
        return texts, errors, Some(OldFormat);
      }
      ghost var before := ReadText(line.value, f.lines);
      var text, e := ReadTextFrom(line.value, f);
      if text.Some? {
        if !TextIsValid(text.value) {
          return texts, errors, Some(Exception);
        }
        Associative(texts, [text.value], ReadAttachedTexts(format, f.lines));
        texts := texts + [text.value];
      }
      errors := errors + e;
    }
    assert texts + [] == texts;
  }

  ghost function ReadAttachedTexts(format: FileFormat, lines: seq<string>): seq<Text> {
    var a := ReadAttached(format, lines);
    if a.Failed? then [] else a.texts
  }

  // The main loop

  /** Process an item, taking further lines from the file. */
  method ReadItemFrom(st: State, line: string, f: Input, load: Loaders) returns (s: State, stop: Option<Outcome>)
    requires line != "" && IsGood(st)
    modifies f
    ensures stop.None? ==> IsGood(s)
    ensures (if stop.Some? then Stop(stop.value) else Step(s, f.lines)) == ReadItem(st, line, old(f.lines), load)
  {
    hide ReadObject, ReadAttached, IsCurrent, ParseVersion, DataIsValid, Normalize, IsGood;
    var c := line[0];
    s, stop := st, None;
    if IsObjectType(c) {
      if !IsCurrent(st.format, c) {
        return st, Some(OldFormat);
      }
      var data, errors, raised := ReadObjectFrom(line, f, load);
      if raised || (data.Some? && !DataIsValid(data.value)) {
        return st, Some(Exception);
      }
      if data.Some? {
        s := Add(st, data.value, errors);
      } else {
        SameObjectsAreGood(st, st.errors + errors);
        s := st.(errors := st.errors + errors);
      }
    } else if c == '{' {
      s, stop := ReadAttributesFrom(st, f);
    } else {
      match ReadItem(st, line, f.lines, load)
      case Step(t, _) => s := t;
      case Stop(o) => stop := Some(o);
    }
  }

  lemma SameObjectsAreGood(st: State, errors: nat)
    requires IsGood(st)
    ensures IsGood(st.(errors := errors))
  {
  }

  method ReadAttributesFrom(st: State, f: Input) returns (s: State, stop: Option<Outcome>)
    requires IsGood(st)
    modifies f
    ensures stop.None? ==> IsGood(s)
    ensures (if stop.Some? then Stop(stop.value) else Step(s, f.lines)) == ReadAttributes(st, old(f.lines))
  {
    hide ReadAttached;
    s, stop := Complain(st), None;
    if st.last.Nothing? {
      return;
    }
    if st.last.Outside? {
      return st, Some(Exception);
    }
    var n := |st.objs| - 1;
    if !CanHaveChildren(st.objs[n].data) {
      return;
    }
    var texts, errors, failure := ReadAttachedFrom(f, st.format);
    if failure.Some? {
      return st, failure;
    }
    s := st.(objs := st.objs[n := AttachTo(st.objs[n], texts)], last := Nothing, errors := st.errors + errors);
  }

  /** Read a schematic or symbol. */
  method ReadFile(text: string, load: Loaders) returns (outcome: Outcome)
    ensures outcome == FileContents(text, load)
  {
    var f := new Input(text);
    f.lines := StripReturns(f.lines);
    var st := START;
    while true
      invariant IsGood(st)
      invariant ReadItems(st, f.lines, load) == FileContents(text, load)
      decreases |f.lines|
    {
      hide ReadItem, IsGood, FileContents;
      var line := f.Next();
      if line.None? {
        break;
      }
      if line.value == "" {
        continue;
      }
      var stop;
      st, stop := ReadItemFrom(st, line.value, f, load);
      if stop.Some? {
        return stop.value;
      }
    }
    outcome := FinishReading(st);
  }

  // Finishing

  /** The visibility of the attached attributes by name. */
  method Visibilities(texts: seq<Text>) returns (m: map<string, bool>)
    ensures forall name :: VisibilityOf(texts, name) == if name in m then Some(m[name]) else None
  {
    m := map[];
    var i := 0;
    while i < |texts|
      invariant i <= |texts|
      invariant forall name :: VisibilityOf(texts[..i], name) == if name in m then Some(m[name]) else None
    {
      hide AttributeName;
      assert texts[..i + 1][..i] == texts[..i];
      var name := AttributeName(texts[i].text);
      if name.Some? {
        m := m[name.value := texts[i].visibility];
      }
      i := i + 1;
    }
    assert texts[..i] == texts;
  }

  /** Give inherited attributes the visibility of the attached ones. */
  method UnhideInherited(objs: seq<Obj>, texts: seq<Text>) returns (r: seq<Obj>)
    ensures r == UnhideAll(objs, texts)
  {
    hide UnhideAll, VisibilityOf;
    var visibility := Visibilities(texts);
    ghost var unhidden := UnhideAll(objs, texts);
    r := objs;
    var i := 0;
    while i < |objs|
      invariant i <= |objs| && r == unhidden[..i] + objs[i..]
    {
      OneMoreReplaced(objs, unhidden, i);
      hide AttributeName;
      if r[i].data.TextData? {
        var name := AttributeName(r[i].data.text.text);
        if name.Some? && name.value in visibility {
          r := r[i := Obj(TextData(r[i].data.text.(visibility := visibility[name.value])), r[i].attached)];
        }
      }
      i := i + 1;
    }
  }

  /** Put the symbol of an embedded component back to its original place, or
      report that it is missing. */
  method FinishComponent(o: Obj) returns (r: Obj, isMissing: bool)
    requires DataIsValid(o.data)
    ensures r == FinishObject(o)
    ensures isMissing <==> IsEmbedded(o) && !HasContents(o)
  {
    r, isMissing := o, false;
    if IsEmbedded(o) {
      if !HasContents(o) {
        return o, true;
      }
      var inner := UnplaceAll(Inner(o), PlacementOf(o.data.component));
      inner := UnhideInherited(inner, o.attached);
      r := FillSymbol(o, inner);
    }
  }

  /** At the end of the file, finish all components. */
  method FinishReading(st: State) returns (outcome: Outcome)
    requires IsGood(st)
    ensures outcome == Finish(st)
  {
    hide FinishObject, FinishAll, MissingSymbols, HasPin;
    var objs, errors := st.objs, st.errors;
    ghost var finished := FinishAll(st.objs);
    NothingMissing(st.objs);
    var i := 0;
    while i < |objs|
      invariant i <= |objs| == |st.objs|
      invariant objs == finished[..i] + st.objs[i..]
      invariant errors == st.errors + MissingSymbols(st.objs[..i])
    {
      MissingSplits(st.objs, i);
      OneMoreReplaced(st.objs, finished, i);
      var o, isMissing := FinishComponent(objs[i]);
      objs := objs[i := o];
      if isMissing {
        errors := errors + 1;
      }
      i := i + 1;
    }
    assert st.objs[..i] == st.objs && objs == finished;
    PinsStay(st.objs);
    if !HasEnhancedPins(st.format) && HasPin(objs) {
      errors := errors + 1;
    }
    return Finished(objs, errors);
  }

  lemma NothingMissing(objs: seq<Obj>)
    ensures MissingSymbols(objs[..0]) == 0
  {
  }

  lemma {:induction false} MissingSplits(objs: seq<Obj>, i: nat)
    requires i < |objs|
    ensures MissingSymbols(objs[..i + 1]) ==
      MissingSymbols(objs[..i]) + if IsEmbedded(objs[i]) && !HasContents(objs[i]) then 1 else 0
  {
    if i > 0 {
      MissingSplits(objs[1..], i - 1);
      assert objs[..i + 1][1..] == objs[1..][..i];
      assert objs[..i][1..] == objs[1..][..i - 1];
    }
  }

  lemma PinsStay(objs: seq<Obj>)
    requires AreValid(objs)
    ensures HasPin(FinishAll(objs)) == HasPin(objs)
  {
    forall i | 0 <= i < |objs|
      ensures FinishObject(objs[i]).data.NetData? == objs[i].data.NetData?
      ensures objs[i].data.NetData? ==> FinishObject(objs[i]).data == objs[i].data
    {
    }
    hide FinishObject;
  }
}
