/** What can be read from a file, whatever it looks like: names which fit on a
    line, and no more than there is in the file. */
module PlainReadable {
  import opened Wrappers
  import opened Sequences
  import opened ObjectData
  import opened PlainFormat
  import opened PlainText
  import opened PlainLines
  import opened Streams
  import opened Base64Decoding
  import opened Drawings
  import opened PlainRead
  import opened PlainObjects
  import opened Unwritable
  import opened PlainWeights

  /** Loaders which return what they have been asked for. */
  ghost predicate IsHonest(load: Loaders) {
    && (forall name :: load.symbol(name).basename == name && !load.symbol(name).embedded)
    && (forall name :: load.pixmap(name).filename == name && !load.pixmap(name).embedded)
  }

  // Lines

  ghost predicate AreLines(lines: seq<string>) {
    forall l :: l in lines ==> IsLine(l)
  }

  /** Whether some lines are what is left of others. */
  ghost predicate IsRest(rest: seq<string>, lines: seq<string>) {
    |rest| <= |lines| && rest == lines[|lines| - |rest|..]
  }

  lemma RestOfRest(a: seq<string>, b: seq<string>, c: seq<string>)
    requires IsRest(a, b) && IsRest(b, c)
    ensures IsRest(a, c)
  {
  }

  lemma RestIsLighter(rest: seq<string>, lines: seq<string>)
    requires IsRest(rest, lines)
    ensures LinesWeight(rest) <= LinesWeight(lines)
    ensures AreLines(lines) ==> AreLines(rest)
  {
    var n := |lines| - |rest|;
    assert lines == lines[..n] + lines[n..];
    LinesWeightSplits(lines[..n], lines[n..]);
    assert forall l :: l in rest ==> l in lines;
  }

  lemma LinesArePieces(s: string)
    requires IsComplete(s)
    ensures AreLines(StripReturns(SplitLines(s)))
  {
    CompleteLines(s);
    forall l | l in StripReturns(SplitLines(s))
      ensures IsLine(l)
    {
      var i :| 0 <= i < |SplitLines(s)| && l == StripReturn(SplitLines(s)[i]);
      assert SplitLines(s)[i] in SplitLines(s);
    }
  }

  lemma {:induction false} CompleteLines(s: string)
    requires IsComplete(s)
    ensures AreLines(SplitLines(s))
    decreases |s|
  {
    hide IsComplete, IsLine;
    if s != "" {
      FirstLine(s);
      CompleteLines(s[LineEnd(s)..]);
    }
  }

  // Texts

  /** The text which is made of some lines has got their weight. */
  lemma TakenWeight(lines: seq<string>, n: nat)
    requires AreLines(lines) && 1 <= n <= |lines|
    ensures TextWeight(TakeText(lines, n) + "\n") + LinesWeight(lines[n..]) == LinesWeight(lines)
    ensures IsRest(lines[n..], lines)
  {
    hide LinesWeight, SplitLines, IsLine, TakeText;
    var taken := lines[..n];
    TakenLines(lines, n);
    assert lines == taken + lines[n..];
    LinesWeightSplits(taken, lines[n..]);
  }

  lemma TakenLines(lines: seq<string>, n: nat)
    requires AreLines(lines) && 1 <= n <= |lines|
    ensures SplitLines(TakeText(lines, n) + "\n") == lines[..n]
  {
    hide SplitLines, IsLine, Concat;
    var taken := lines[..n];
    assert forall l :: l in taken ==> l in lines;
    SplitRestoresLines(taken);
    LinesEnd(taken);
    var s := Concat(taken);
    assert s[..|s| - 1] + "\n" == s;
  }

  lemma {:induction false} LinesEnd(lines: seq<string>)
    requires AreLines(lines) && lines != []
    ensures Concat(lines) != "" && Concat(lines)[|Concat(lines)| - 1] == '\n'
  {
    assert lines[0] in lines && forall l :: l in lines[1..] ==> l in lines;
    if |lines| > 1 {
      LinesEnd(lines[1..]);
    }
  }

  lemma TextIsLight(line: string, rest: seq<string>)
    requires AreLines(rest)
    ensures
      var p := ReadText(line, rest);
      && p.Parsed? && IsRest(p.rest, rest)
      && (p.data.Some? && p.errors == 0 ==>
            TextWeight(p.data.value.text + "\n") + LinesWeight(p.rest) <= LinesWeight(rest))
  {
    hide Sscanf, TakeText, TextWeight, LinesWeight, IsLine;
    var p := ReadText(line, rest);
    var r := Sscanf(line, [C] + Ints(9));
    if r.Some? {
      var n := r.value[9].n;
      if 1 <= n <= |rest| {
        TakenWeight(rest, n);
      }
    }
  }

  /** The same for paths; an empty one is as heavy as the line from which it has
      been read. */
  lemma PathIsLight(line: string, rest: seq<string>)
    requires AreLines(rest) && line != "" && line[0] == 'H'
    ensures
      var p := ReadPath(line, rest);
      && p.Parsed? && IsRest(p.rest, rest)
      && (p.data.Some? && p.errors == 0 ==>
            p.data.value.PathData? && DataWeight(p.data.value) + LinesWeight(p.rest) <= Weight(line) + LinesWeight(rest))
  {
    hide Sscanf, TakeText, TextWeight, LinesWeight, IsLine, LineOf, FillOf;
    var p := ReadPath(line, rest);
    var r := Sscanf(line, [C] + Ints(13));
    if r.Some? {
      var n := r.value[13].n;
      if 1 <= n <= |rest| {
        TakenWeight(rest, n);
      } else if n <= 0 {
        EmptyPathIsLight(rest, n);
        assert rest[0..] == rest;
      }
    }
  }

  lemma EmptyPathIsLight(rest: seq<string>, n: int)
    requires n <= 0
    ensures TakeText(rest, n) == "" && TextWeight("" + "\n") == 1
  {
    NoneIsLight();
    OneLine("\n");
  }

  // Pixmaps

  lemma {:induction false} DecodedRest(r: Reading, lines: seq<string>, delim: Option<string>)
    requires IsConsistent(r)
    ensures IsRest(ReadLines(r, lines, delim).rest, lines)
    decreases |lines|
  {
    hide ReadChars;
    if lines != [] && !(delim.Some? && lines[0] == delim.value + "\n") {
      var t := ReadChars(r, lines[0]);
      if t.Next? {
        DecodedRest(t.reading, lines[1..], delim);
        RestOfRest(ReadLines(t.reading, lines[1..], delim).rest, lines[1..], lines);
      }
    }
  }

  lemma PixmapIsLight(rest: seq<string>, embedded: bool, load: Loaders)
    requires AreLines(rest) && IsHonest(load)
    ensures
      var p := ReadPixmap(rest, embedded, load);
      p.Parsed? ==>
        && IsRest(p.rest, rest) && p.data.Some?
        && (p.errors == 0 ==>
              var name := p.data.value.filename;
              && NameWeight(name) + LinesWeight(p.rest) <= LinesWeight(rest)
              && (name.Some? ==> name.value != "" && '\n' !in name.value)
              && (!p.data.value.embedded ==> load.pixmap(name) == p.data.value))
  {
    hide NameWeight, LinesWeight, Decoding, AreLines, IsRest;
    if rest != [] {
      NameIsLight(rest);
      DataAreLight(rest);
    } else {
      NothingIsRest();
    }
  }

  lemma NothingIsRest()
    ensures IsRest([], [])
    ensures IsRest(Decoding([], Some(".")).rest, [])
  {
  }

  /** The file name is as heavy as its line. */
  lemma NameIsLight(rest: seq<string>)
    requires AreLines(rest) && rest != []
    ensures
      var s := WithoutNewline(rest[0]);
      var name := if s == "" then None else Some(s);
      NameWeight(name) + LinesWeight(rest[1..]) == LinesWeight(rest) && '\n' !in s
    ensures IsRest(rest[1..], rest)
  {
    hide Weight, LinesWeight;
    var line := rest[0];
    assert IsLine(line) && WithoutNewline(line) + "\n" == line;
    FirstWeight(rest);
  }

  lemma DataAreLight(rest: seq<string>)
    requires rest != []
    ensures
      var d := Decoding(rest[1..], Some("."));
      IsRest(d.rest, rest) && LinesWeight(d.rest) <= LinesWeight(rest[1..])
  {
    hide LinesWeight, ReadLines;
    DecodedRest(Base64Decoding.START, rest[1..], Some("."));
    RestOfRest(Decoding(rest[1..], Some(".")).rest, rest[1..], rest);
    RestIsLighter(Decoding(rest[1..], Some(".")).rest, rest[1..]);
  }

  lemma FirstWeight(lines: seq<string>)
    requires lines != []
    ensures LinesWeight(lines) == Weight(lines[0]) + LinesWeight(lines[1..])
  {
  }

  // Objects

  /** Whether something could be read as a part of some lines: the names are
      good, and it isn't too heavy. */
  ghost predicate IsLight(d: Data<Symbol, Pixmap>, rest: seq<string>, lines: seq<string>, load: Loaders) {
    && HasGoodNames(d, load)
    && (d.ComponentData? && d.component.symbol.embedded ==> d.component.symbol.contents.Missing?)
    && DataWeight(d) + LinesWeight(rest) <= LinesWeight(lines)
  }

  ghost predicate IsReadAs(p: Parsed<Data<Symbol, Pixmap>>, line: string, rest: seq<string>, load: Loaders) {
    p.Parsed? ==>
      IsRest(p.rest, rest) && (p.data.Some? && p.errors == 0 ==> IsLight(p.data.value, p.rest, [line] + rest, load))
  }

  lemma LineAndRest(line: string, rest: seq<string>)
    ensures LinesWeight([line] + rest) == Weight(line) + LinesWeight(rest)
    ensures ([line] + rest)[1..] == rest
  {
    FirstWeight([line] + rest);
  }

  lemma ComponentIsLight(line: string, rest: seq<string>, load: Loaders)
    requires IsHonest(load)
    ensures IsReadAs(ReadComplex(line, rest, load), line, rest, load)
  {
    hide Sscanf, IsWord, LinesWeight, Weight;
    LineAndRest(line, rest);
    NameIsWord(line);
    var r := Sscanf(line, [C] + Ints(5) + [S]);
    if r.Some? && StartsWithEmbedded(r.value[6].s) {
      var name := r.value[6].s;
      assert name == "EMBEDDED" + name[8..];
    }
  }

  lemma PictureIsLight(line: string, rest: seq<string>, load: Loaders)
    requires AreLines(rest) && IsHonest(load)
    ensures IsReadAs(ReadPicture(line, rest, load), line, rest, load)
  {
    hide Sscanf, ReadPixmap, LinesWeight, Weight, IsHonest;
    LineAndRest(line, rest);
    var r := Sscanf(line, [C] + Ints(7));
    if r.Some? {
      PixmapIsLight(rest, r.value[7].n == 1, load);
    }
  }

  /** Objects which fit on a line don't have any weight. */
  lemma SingleIsLight(data: Option<Data<Symbol, Pixmap>>, line: string, rest: seq<string>, load: Loaders)
    requires data.Some? ==> !data.value.ComponentData? && !data.value.TextData? && !data.value.PathData? && !data.value.PictureData?
    ensures IsReadAs(Single(data, rest), line, rest, load)
  {
    hide LinesWeight, Weight;
    LineAndRest(line, rest);
    assert rest[0..] == rest;
  }

  /** Whatever object is read, its names are good, and it isn't heavier than the
      lines from which it has been read. */
  lemma ObjectIsLight(c: char, line: string, rest: seq<string>, load: Loaders)
    requires IsObjectType(c) && line != "" && line[0] == c
    requires AreLines(rest) && IsHonest(load)
    ensures IsReadAs(ReadObject(c, line, rest, load), line, rest, load)
  {
    hide Sscanf, LinesWeight, Weight, TextWeight, ReadText, ReadPath, ReadPicture, ReadComplex, IsHonest, LineOf, FillOf;
    LineAndRest(line, rest);
    if c == 'C' {
      ComponentIsLight(line, rest, load);
    } else if c == 'G' {
      PictureIsLight(line, rest, load);
    } else if c == 'T' {
      TextIsLight(line, rest);
    } else if c == 'H' {
      PathIsLight(line, rest);
    } else {
      var p := ReadObject(c, line, rest, load);
      SingleIsLight(p.data, line, rest, load);
    }
  }

  // Whole files

  function StackWeight(stack: seq<seq<Obj>>): nat {
    if stack == [] then 0
    else
      var n := |stack| - 1;
      StackWeight(stack[..n]) + ObjectsWeight(stack[n])
  }

  /** Unless an error has been reported, what has been read so far has got good
      names, and it isn't too heavy together with what hasn't been read yet. */
  ghost predicate IsWithin(st: State, lines: seq<string>, n: nat, load: Loaders) {
    && AreLines(lines)
    && (st.errors == 0 ==>
          && AreNamed(st.objs, load)
          && (forall i :: 0 <= i < |st.stack| ==> AreNamed(st.stack[i], load))
          && ObjectsWeight(st.objs) + StackWeight(st.stack) + LinesWeight(lines) <= n)
  }

  ghost predicate StaysWithin(s: PlainRead.Step, n: nat, load: Loaders) {
    if s.Step? then IsWithin(s.st, s.rest, n, load) else !s.outcome.Finished?
  }

  lemma LastObject(objs: seq<Obj>, o: Obj, load: Loaders)
    requires objs != []
    ensures
      var n := |objs| - 1;
      && ObjectsWeight(objs[n := o]) + ObjectWeight(objs[n]) == ObjectsWeight(objs) + ObjectWeight(o)
      && (AreNamed(objs, load) ==> IsNamed(objs[n], load))
      && (AreNamed(objs, load) && IsNamed(o, load) ==> AreNamed(objs[n := o], load))
  {
    hide ObjectsWeight, ObjectWeight, IsNamed;
    var n := |objs| - 1;
    assert objs == objs[..n] + [objs[n]] && objs[n := o] == objs[..n] + [o];
    ObjectsWeightSplits(objs[..n], [objs[n]]);
    ObjectsWeightSplits(objs[..n], [o]);
    OneObject(objs[n]);
    OneObject(o);
  }

  lemma NewObject(objs: seq<Obj>, d: Data<Symbol, Pixmap>, load: Loaders)
    requires HasGoodNames(d, load)
    requires d.ComponentData? && d.component.symbol.embedded ==> d.component.symbol.contents.Missing?
    ensures
      var o := Obj(Normalize(d), []);
      && ObjectsWeight(objs + [o]) == ObjectsWeight(objs) + DataWeight(d)
      && (AreNamed(objs, load) ==> AreNamed(objs + [o], load))
  {
    hide ObjectsWeight, TextWeight, NameWeight, IsWritable;
    var o := Obj(Normalize(d), []);
    assert DataWeight(o.data) == DataWeight(d) && HasGoodNames(o.data, load);
    hide DataWeight, HasGoodNames;
    assert ObjectWeight(o) == DataWeight(d) && IsNamed(o, load);
    ObjectsWeightSplits(objs, [o]);
    OneObject(o);
  }

  lemma NewObjectIsLight(st: State, line: string, rest: seq<string>, n: nat, load: Loaders)
    requires line != "" && IsObjectType(line[0]) && IsGood(st) && IsHonest(load)
    requires IsWithin(st, [line] + rest, n, load)
    ensures StaysWithin(ReadNewObject(st, line, rest, load), n, load)
  {
    hide IsGood, ReadObject, IsObjectType, IsHonest, ObjectsWeight, StackWeight, LinesWeight, IsRest, AreNamed, DataWeight,
      HasGoodNames, Weight, AreLines;
    LineAndRest(line, rest);
    RestIsLines(line, rest);
    ObjectIsLight(line[0], line, rest, load);
    var p := ReadObject(line[0], line, rest, load);
    if p.Parsed? {
      RestIsLighter(p.rest, rest);
      if p.data.Some? && p.errors == 0 {
        NewObject(st.objs, p.data.value, load);
      }
    }
  }

  lemma RestIsLines(line: string, rest: seq<string>)
    requires AreLines([line] + rest)
    ensures AreLines(rest) && IsLine(line)
  {
    var lines := [line] + rest;
    assert line in lines && forall l :: l in rest ==> l in lines;
  }

  /** The texts in an attribute list aren't heavier than their lines. */
  lemma {:induction false} AttachedAreLight(format: FileFormat, lines: seq<string>)
    requires AreLines(lines)
    ensures
      var a := ReadAttached(format, lines);
      if a.Failed? then !a.outcome.Finished?
      else
        && IsRest(a.rest, lines)
        && (a.errors == 0 ==> TextsWeight(a.texts) + LinesWeight(a.rest) <= LinesWeight(lines))
    decreases |lines|
  {
    hide ReadText, LinesWeight, TextsWeight, Weight, IsRest, TextIsValid, IsCurrent, AreLines;
    NoTexts();
    if lines == [] {
      NothingIsRest();
    } else {
      var line, rest := lines[0], lines[1..];
      assert lines == [line] + rest;
      RestIsLines(line, rest);
      FirstWeight(lines);
      OneLess(lines);
      if line[0] == 'T' {
        TextIsLight(line, rest);
        var p := ReadText(line, rest);
        RestIsLighter(p.rest, rest);
        AttachedAreLight(format, p.rest);
        RestOfAttached(format, p.rest, rest, lines);
        if p.data.Some? && ReadAttached(format, p.rest).Attached? {
          FirstTextWeight(p.data.value, ReadAttached(format, p.rest));
        }
      } else if line[0] != '}' {
        AttachedAreLight(format, rest);
        RestOfAttached(format, rest, rest, lines);
      }
    }
  }

  lemma NoTexts()
    ensures TextsWeight([]) == 0
  {
  }

  lemma OneLess(lines: seq<string>)
    requires lines != []
    ensures IsRest(lines[1..], lines) && IsRest(lines[1..], lines[1..])
  {
  }

  lemma RestOfAttached(format: FileFormat, a: seq<string>, b: seq<string>, lines: seq<string>)
    requires IsRest(a, b) && IsRest(b, lines)
    requires var r := ReadAttached(format, a); r.Attached? ==> IsRest(r.rest, a)
    ensures var r := ReadAttached(format, a); r.Attached? ==> IsRest(r.rest, lines)
  {
    hide ReadAttached, IsRest;
    var r := ReadAttached(format, a);
    RestOfRest(a, b, lines);
    if r.Attached? {
      RestOfRest(r.rest, a, lines);
    }
  }

  lemma FirstTextWeight(t: Text, a: Attached)
    requires a.Attached?
    ensures TextsWeight(PutFirst(t, 0, a).texts) == TextWeight(t.text + "\n") + TextsWeight(a.texts)
  {
    hide TextWeight;
    assert ([t] + a.texts)[1..] == a.texts;
  }

  lemma AttributesAreLight(st: State, line: string, rest: seq<string>, n: nat, load: Loaders)
    requires IsGood(st) && IsWithin(st, [line] + rest, n, load)
    ensures StaysWithin(ReadAttributes(st, rest), n, load)
  {
    hide IsGood, ReadAttached, ObjectsWeight, StackWeight, LinesWeight, IsRest, AreNamed, AreLines, ObjectWeight, IsNamed,
      TextsWeight, Weight, CanHaveChildren;
    LineAndRest(line, rest);
    RestIsLines(line, rest);
    AttachedAreLight(st.format, rest);
    var a := ReadAttached(st.format, rest);
    if a.Attached? {
      RestIsLighter(a.rest, rest);
    }
    if st.last.LastObject? {
      HasLast(st);
      var o := st.objs[|st.objs| - 1];
      if a.Attached? {
        AttachedWeight(o, a.texts, load);
        LastObject(st.objs, AttachTo(o, a.texts), load);
      }
    }
  }

  lemma HasLast(st: State)
    requires IsGood(st) && st.last.LastObject?
    ensures st.objs != []
  {
  }

  lemma AttachedWeight(o: Obj, texts: seq<Text>, load: Loaders)
    ensures ObjectWeight(AttachTo(o, texts)) == ObjectWeight(o) + TextsWeight(texts)
    ensures IsNamed(AttachTo(o, texts), load) == IsNamed(o, load)
  {
    hide TextsWeight, DataWeight, ObjectsWeight, HasGoodNames;
    TextsWeightSplits(o.attached, texts);
  }

  lemma StartIsLight(st: State, line: string, rest: seq<string>, n: nat, load: Loaders)
    requires IsGood(st) && IsWithin(st, [line] + rest, n, load)
    ensures StaysWithin(StartSymbol(st, rest), n, load)
  {
    hide IsGood, ObjectsWeight, LinesWeight, AreNamed, AreLines, Weight, SymbolMayStart;
    LineAndRest(line, rest);
    RestIsLines(line, rest);
    NoObjects(load);
    var stack := st.stack + [st.objs];
    assert stack[..|stack| - 1] == st.stack;
    if st.last.LastObject? {
      HasLast(st);
    }
  }

  lemma NoObjects(load: Loaders)
    ensures ObjectsWeight([]) == 0 && AreNamed([], load)
  {
  }

  lemma EndIsLight(st: State, line: string, rest: seq<string>, n: nat, load: Loaders)
    requires IsGood(st) && IsWithin(st, [line] + rest, n, load)
    ensures StaysWithin(EndSymbol(st, rest), n, load)
  {
    hide IsGood, ObjectsWeight, LinesWeight, AreNamed, AreLines, Weight, ObjectWeight, IsNamed;
    LineAndRest(line, rest);
    RestIsLines(line, rest);
    if st.stack != [] {
      StackTop(st);
      var outer := st.stack[|st.stack| - 1];
      var o := outer[|outer| - 1];
      FilledWeight(o, st.objs, load);
      LastObject(outer, FillSymbol(o, st.objs), load);
    }
  }

  lemma StackTop(st: State)
    requires IsGood(st) && st.stack != []
    ensures
      var outer := st.stack[|st.stack| - 1];
      outer != [] && SymbolMayStart(outer[|outer| - 1])
  {
  }

  lemma FilledWeight(o: Obj, objs: seq<Obj>, load: Loaders)
    requires SymbolMayStart(o)
    ensures ObjectWeight(FillSymbol(o, objs)) == ObjectWeight(o) + ObjectsWeight(objs)
    ensures IsNamed(o, load) && AreNamed(objs, load) ==> IsNamed(FillSymbol(o, objs), load)
  {
    hide TextsWeight, ObjectsWeight, AreNamed, IsWord;
    assert Inner(FillSymbol(o, objs)) == objs;
  }

  lemma ItemIsLight(st: State, line: string, rest: seq<string>, n: nat, load: Loaders)
    requires line != "" && IsGood(st) && IsHonest(load)
    requires IsWithin(st, [line] + rest, n, load)
    ensures StaysWithin(ReadItem(st, line, rest, load), n, load)
  {
    hide IsGood, ReadNewObject, ReadAttributes, StartSymbol, EndSymbol, IsObjectType, AreNamed, AreLines, LinesWeight, Weight,
      ObjectsWeight, StackWeight, IsHonest, ParseVersion;
    LineAndRest(line, rest);
    RestIsLines(line, rest);
    var c := line[0];
    if IsObjectType(c) {
      NewObjectIsLight(st, line, rest, n, load);
    } else if c == '{' {
      AttributesAreLight(st, line, rest, n, load);
    } else if c == '[' {
      StartIsLight(st, line, rest, n, load);
    } else if c == ']' {
      EndIsLight(st, line, rest, n, load);
    }
  }

  lemma FinishedIsLight(o: Obj, load: Loaders)
    requires DataIsValid(o.data)
    ensures ObjectWeight(FinishObject(o)) == ObjectWeight(o)
    ensures IsNamed(o, load) ==> IsNamed(FinishObject(o), load)
  {
    hide UnplaceObject, ObjectsWeight, TextsWeight, Unhide, AreNamed, IsWord;
    if IsEmbedded(o) && HasContents(o) {
      var p := PlacementOf(o.data.component);
      var objs := UnhideAll(UnplaceAll(Inner(o), p), o.attached);
      InnerIsLight(Inner(o), p, o.attached, load);
      assert Inner(FillSymbol(o, objs)) == objs;
    }
  }

  lemma InnerIsLight(objs: seq<Obj>, p: Placement, texts: seq<Text>, load: Loaders)
    requires AngleIsValid(p.angle)
    ensures
      var r := UnhideAll(UnplaceAll(objs, p), texts);
      ObjectsWeight(r) == ObjectsWeight(objs) && (AreNamed(objs, load) ==> AreNamed(r, load))
  {
    hide ObjectWeight, ObjectsWeight, UnplaceObject, Unhide, IsNamed;
    var r := UnhideAll(UnplaceAll(objs, p), texts);
    forall i | 0 <= i < |objs|
      ensures ObjectWeight(r[i]) == ObjectWeight(objs[i]) && (IsNamed(objs[i], load) ==> IsNamed(r[i], load))
    {
      UnplacedIsLight(objs[i], p, texts, load);
    }
    SameWeights(r, objs);
  }

  lemma UnplacedIsLight(o: Obj, p: Placement, texts: seq<Text>, load: Loaders)
    requires AngleIsValid(p.angle)
    ensures
      var y := UnplaceObject(o, p);
      var r := Obj(Unhide(y.data, texts), y.attached);
      ObjectWeight(r) == ObjectWeight(o) && (IsNamed(o, load) ==> IsNamed(r, load))
  {
    hide TextWeight, NameWeight, ObjectsWeight, TextsWeight, AttributeName, VisibilityOf, AreNamed, IsWord;
    var y := UnplaceObject(o, p);
    SameTextWeights(y.attached, o.attached);
  }

  lemma EndOfFileIsLight(st: State, n: nat, load: Loaders)
    requires IsGood(st) && IsWithin(st, [], n, load)
    ensures
      var r := PlainRead.Finish(st);
      r.errors == 0 ==> AreNamed(r.objs, load) && ObjectsWeight(r.objs) <= n
  {
    hide ObjectWeight, ObjectsWeight, FinishObject, IsNamed, StackWeight, MissingSymbols, HasPin;
    var r := FinishAll(st.objs);
    forall i | 0 <= i < |st.objs|
      ensures ObjectWeight(r[i]) == ObjectWeight(st.objs[i]) && (IsNamed(st.objs[i], load) ==> IsNamed(r[i], load))
    {
      FinishedIsLight(st.objs[i], load);
    }
    SameWeights(r, st.objs);
  }

  lemma {:induction false} ItemsAreLight(st: State, lines: seq<string>, n: nat, load: Loaders)
    requires IsGood(st) && IsHonest(load) && IsWithin(st, lines, n, load)
    ensures
      var r := ReadItems(st, lines, load);
      r.Finished? && r.errors == 0 ==> AreNamed(r.objs, load) && ObjectsWeight(r.objs) <= n
    decreases |lines|
  {
    hide IsGood, IsHonest, IsWithin, ReadItem, PlainRead.Finish, AreNamed, ObjectsWeight;
    if lines == [] {
      EndOfFileIsLight(st, n, load);
    } else {
      var line, rest := lines[0], lines[1..];
      assert lines == [line] + rest;
      NoEmptyLine(st, line, rest, n, load);
      ItemIsLight(st, line, rest, n, load);
      var s := ReadItem(st, line, rest, load);
      if s.Step? {
        ItemsAreLight(s.st, s.rest, n, load);
      }
    }
  }

  lemma NoEmptyLine(st: State, line: string, rest: seq<string>, n: nat, load: Loaders)
    requires IsWithin(st, [line] + rest, n, load)
    ensures line != ""
  {
    RestIsLines(line, rest);
  }

  /** Whatever a file looks like, if it can be read without an error, all names
      in it are good, and it is at least as heavy as what has been read. */
  lemma FileIsReadable(text: string, load: Loaders)
    requires IsComplete(text) && IsHonest(load)
    ensures
      var r := FileContents(text, load);
      r.Finished? && r.errors == 0 ==> AreNamed(r.objs, load) && ObjectsWeight(r.objs) <= StrippedWeight(text)
  {
    hide ReadItems, LinesWeight, AreLines, IsHonest;
    LinesArePieces(text);
    NoObjects(load);
    ItemsAreLight(PlainRead.START, StripReturns(SplitLines(text)), StrippedWeight(text), load);
  }
}
