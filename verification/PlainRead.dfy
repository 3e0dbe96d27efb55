/** Reading schematics and symbols in gEDA file format: what each object and
    each line of a file means. */
module PlainRead {
  import opened Wrappers
  import opened ObjectData
  import opened Decimals
  import opened PlainFormat
  import opened PlainText
  import opened Streams
  import opened Base64
  import opened Base64Decoding
  import opened Drawings

  /** Functions for loading referenced symbol and pixmap files. */
  datatype Loaders = Loaders(symbol: string -> Symbol, pixmap: Option<string> -> Pixmap)

  // File format versions

  const VERSION_20000704 := 20000704
  const VERSION_20020825 := 20020825
  const VERSION_20030921 := 20030921

  datatype FileFormat = FileFormat(release: int, fileformat: int)

  predicate SupportsLineFill(f: FileFormat) {
    f.release > VERSION_20000704
  }

  predicate HasEnhancedPins(f: FileFormat) {
    f.release > VERSION_20020825
  }

  predicate SupportsMultilineText(f: FileFormat) {
    f.fileformat >= 1
  }

  /** Whether objects of a type look as they do in current files. */
  predicate IsCurrent(f: FileFormat, objtype: char) {
    if objtype in {'L', 'B', 'V', 'A'} then SupportsLineFill(f)
    else if objtype in {'U', 'P'} then HasEnhancedPins(f)
    else if objtype == 'T' then SupportsMultilineText(f)
    else true
  }

  function VersionOf(release: int, fileformat: int): FileFormat {
    FileFormat(release, if release <= VERSION_20030921 then 0 else fileformat)
  }

  function ParseVersion(line: string): Option<FileFormat> {
    var v := Sscanf(line, [C, U, U]);
    if v.Some? then Some(VersionOf(v.value[1].n, v.value[2].n))
    else
      var w := Sscanf(line, [C, U]);
      if w.Some? then Some(VersionOf(w.value[1].n, 0)) else None
  }

  // Repairing values which are out of range

  function FixColor(color: int): int {
    if color < 0 || color >= MAX_OBJECT_COLORS then DEFAULT_COLOR else color
  }

  function FixAngle(angle: int): int {
    if AngleIsValid(angle) then angle else 0
  }

  function FixRadius(radius: int): int {
    if radius < 0 then 0 else radius
  }

  function FixAlignment(alignment: int): int {
    if 0 <= alignment < 9 then alignment else 0
  }

  // Objects which fit on a line

  function Ints(n: nat): (convs: seq<Conversion>)
    ensures |convs| == n && forall i :: 0 <= i < n ==> convs[i] == D
  {
    seq(n, _ => D)
  }

  function LineOf(v: seq<Field>, i: nat): LineAttr
    requires i + 5 <= |v| && forall j :: i <= j < i + 5 ==> v[j].Int?
  {
    NormalizeLine(LineAttr(v[i].n, v[i + 1].n, v[i + 2].n, v[i + 3].n, v[i + 4].n))
  }

  function FillOf(v: seq<Field>, i: nat): FillAttr
    requires i + 6 <= |v| && forall j :: i <= j < i + 6 ==> v[j].Int?
  {
    NormalizeFill(FillAttr(v[i].n, v[i + 1].n, v[i + 2].n, v[i + 3].n, v[i + 4].n, v[i + 5].n))
  }

  function ReadLineObject(line: string): Option<Data<Symbol, Pixmap>> {
    var r := Sscanf(line, [C] + Ints(10));
    if r.None? then None
    else
      var v := r.value;
      Some(LineData(Line(v[1].n, v[2].n, v[3].n - v[1].n, v[4].n - v[2].n, FixColor(v[5].n), LineOf(v, 6))))
  }

  function ReadNet(line: string): Option<Data<Symbol, Pixmap>> {
    var r := Sscanf(line, [C] + Ints(5));
    if r.None? then None
    else
      var v := r.value;
      Some(NetData(Net(v[1].n, v[2].n, v[3].n - v[1].n, v[4].n - v[2].n, FixColor(v[5].n), false, false, false)))
  }

  function ReadBus(line: string): Option<Data<Symbol, Pixmap>> {
    var r := Sscanf(line, [C] + Ints(6));
    if r.None? then None
    else
      var v := r.value;
      Some(NetData(Net(v[1].n, v[2].n, v[3].n - v[1].n, v[4].n - v[2].n, FixColor(v[5].n), true, false, false)))
  }

  function ReadPin(line: string): Option<Data<Symbol, Pixmap>> {
    var r := Sscanf(line, [C] + Ints(7));
    if r.None? then None
    else
      var v := r.value;
      var isInverted := v[7].n == 1;
      var (x1, y1, x2, y2) :=
        if isInverted then (v[3].n, v[4].n, v[1].n, v[2].n) else (v[1].n, v[2].n, v[3].n, v[4].n);
      Some(NetData(Net(x1, y1, x2 - x1, y2 - y1, FixColor(v[5].n), v[6].n == 1, true, isInverted)))
  }

  function ReadBox(line: string): Option<Data<Symbol, Pixmap>> {
    var r := Sscanf(line, [C] + Ints(16));
    if r.None? then None
    else
      var v := r.value;
      Some(BoxData(Box(v[1].n, v[2].n, v[3].n, v[4].n, FixColor(v[5].n), LineOf(v, 6), FillOf(v, 11))))
  }

  function ReadCircle(line: string): Option<Data<Symbol, Pixmap>> {
    var r := Sscanf(line, [C] + Ints(15));
    if r.None? then None
    else
      var v := r.value;
      Some(CircleData(Circle(v[1].n, v[2].n, FixRadius(v[3].n), FixColor(v[4].n), LineOf(v, 5), FillOf(v, 10))))
  }

  function ReadArc(line: string): Option<Data<Symbol, Pixmap>> {
    var r := Sscanf(line, [C] + Ints(11));
    if r.None? then None
    else
      var v := r.value;
      Some(ArcData(Arc(v[1].n, v[2].n, FixRadius(v[3].n), v[4].n, v[5].n, FixColor(v[6].n), LineOf(v, 7))))
  }

  // Reading an object; some objects take up more lines.

  /** The result of reading something: the data unless it couldn't be parsed,
      the lines which follow, and the number of errors which were reported. */
  datatype Parsed<+T> =
    | Parsed(data: Option<T>, rest: seq<string>, errors: nat)
    | Raised

  function Single(data: Option<Data<Symbol, Pixmap>>, rest: seq<string>): Parsed<Data<Symbol, Pixmap>> {
    Parsed(data, rest, if data.None? then 1 else 0)
  }

  predicate StartsWithEmbedded(basename: string) {
    |basename| >= 8 && basename[..8] == "EMBEDDED"
  }

  /** The symbol must not be embedded if it has been loaded from a file. */
  function ReadComplex(line: string, rest: seq<string>, load: Loaders): (p: Parsed<Data<Symbol, Pixmap>>)
    ensures p.Parsed? ==> |p.rest| <= |rest|
  {
    var r := Sscanf(line, [C] + Ints(5) + [S]);
    if r.None? then Parsed(None, rest, 1)
    else
      var v := r.value;
      var basename := v[6].s;
      var symbol :=
        if StartsWithEmbedded(basename) then Symbol(basename[8..], Missing, true) else load.symbol(basename);
      if !StartsWithEmbedded(basename) && symbol.embedded then Raised
      else
        Parsed(Some(ComponentData(Component(v[1].n, v[2].n, v[3].n != 0, FixAngle(v[4].n), v[5].n == 1, symbol))), rest, 0)
  }

  function Least(a: int, b: nat): (m: nat)
    ensures m <= b
  {
    if a < 0 then 0 else if a < b then a else b
  }

  function WithoutNewline(s: string): string {
    if s != "" && s[|s| - 1] == '\n' then s[..|s| - 1] else s
  }

  /** The text consisting of a number of lines, or all that are left. */
  function TakeText(lines: seq<string>, n: int): string {
    WithoutNewline(Concat(lines[..Least(n, |lines|)]))
  }

  function ReadText(line: string, rest: seq<string>): (p: Parsed<Text>)
    ensures p.Parsed? ==> |p.rest| <= |rest|
  {
    var r := Sscanf(line, [C] + Ints(9));
    if r.None? then Parsed(None, rest, 1)
    else
      var v := r.value;
      var n := v[9].n;
      Parsed(
        Some(Text(v[1].n, v[2].n, FixColor(v[3].n), v[4].n, v[5].n != 0, v[6].n, FixAngle(v[7].n),
                  FixAlignment(v[8].n), TakeText(rest, n))),
        rest[Least(n, |rest|)..],
        (if n <= 0 then 1 else 0) + (if n > |rest| then 1 else 0))
  }

  function ReadTextObject(line: string, rest: seq<string>): (p: Parsed<Data<Symbol, Pixmap>>)
    ensures p.Parsed? ==> |p.rest| <= |rest|
  {
    match ReadText(line, rest)
    case Parsed(data, r, e) => Parsed(if data.Some? then Some(TextData(data.value)) else None, r, e)
    case Raised => Raised
  }

  function ReadPath(line: string, rest: seq<string>): (p: Parsed<Data<Symbol, Pixmap>>)
    ensures p.Parsed? ==> |p.rest| <= |rest|
  {
    var r := Sscanf(line, [C] + Ints(13));
    if r.None? then Parsed(None, rest, 1)
    else
      var v := r.value;
      var n := v[13].n;
      Parsed(
        Some(PathData(Path(TakeText(rest, n), FixColor(v[1].n), LineOf(v, 2), FillOf(v, 7)))),
        rest[Least(n, |rest|)..],
        if n > |rest| then 1 else 0)
  }

  /** Read the pixmap of a picture: the file name, and the data if this is
      embedded. */
  function ReadPixmap(rest: seq<string>, embedded: bool, load: Loaders): (p: Parsed<Pixmap>)
    ensures p.Parsed? ==> |p.rest| <= |rest|
  {
    var name := if rest == [] then Some("")
      else if WithoutNewline(rest[0]) == "" then None else Some(WithoutNewline(rest[0]));
    var lines, errors := if rest == [] then [] else rest[1..], if rest == [] then 1 else 0;
    if !embedded then
      var p := load.pixmap(name);
      if p.embedded then Raised else Parsed(Some(p), lines, errors)
    else
      var d := Decoding(lines, Some("."));
      match d.outcome
      case Decoded(data) => Parsed(Some(Pixmap(name, data, true)), d.rest, errors)
      case DecodingError => Parsed(Some(Pixmap(name, [], true)), d.rest, errors + 1)
      case IndexError => Raised
  }

  function ReadPicture(line: string, rest: seq<string>, load: Loaders): (p: Parsed<Data<Symbol, Pixmap>>)
    ensures p.Parsed? ==> |p.rest| <= |rest|
  {
    var r := Sscanf(line, [C] + Ints(7));
    if r.None? then Parsed(None, rest, 1)
    else
      var v := r.value;
      match ReadPixmap(rest, v[7].n == 1, load)
      case Parsed(p, lines, errors) =>
        Parsed(
          if p.Some? then
            Some(PictureData(Picture(v[1].n, v[2].n, v[3].n, v[4].n, FixAngle(v[5].n), v[6].n == 1, p.value)))
          else None,
          lines, errors)
      case Raised => Raised
    }

  predicate IsObjectType(c: char) {
    c in {'L', 'N', 'U', 'B', 'G', 'V', 'C', 'T', 'H', 'P', 'A'}
  }

  /** Read the object whose type is c from its first line and the lines which
      follow. */
  function ReadObject(c: char, line: string, rest: seq<string>, load: Loaders): (p: Parsed<Data<Symbol, Pixmap>>)
    requires IsObjectType(c)
    ensures p.Parsed? ==> |p.rest| <= |rest|
  {
    if c == 'L' then Single(ReadLineObject(line), rest)
    else if c == 'N' then Single(ReadNet(line), rest)
    else if c == 'U' then Single(ReadBus(line), rest)
    else if c == 'B' then Single(ReadBox(line), rest)
    else if c == 'G' then ReadPicture(line, rest, load)
    else if c == 'V' then Single(ReadCircle(line), rest)
    else if c == 'C' then ReadComplex(line, rest, load)
    else if c == 'T' then ReadTextObject(line, rest)
    else if c == 'H' then ReadPath(line, rest)
    else if c == 'P' then Single(ReadPin(line), rest)
    else Single(ReadArc(line), rest)
  }

  // Reading a file

  /** The last object which has been read: attributes and symbols attach to
      this.  Inside an embedded symbol, before any object has been read, it is
      an object outside of the symbol. */
  datatype Last = Nothing | LastObject | Outside

  /** The state between two lines: the objects read so far and, while inside an
      embedded symbol, those of the outer contexts. */
  datatype State = State(objs: seq<Obj>, last: Last, stack: seq<seq<Obj>>, format: FileFormat, errors: nat)

  const START := State([], Nothing, [], FileFormat(0, 0), 0)

  /** How reading a file ends: with some objects and a number of errors
      reported, with an exception, or with an object in a format which isn't
      modelled. */
  datatype Outcome = Finished(objs: seq<Obj>, errors: nat) | Exception | OldFormat

  function Complain(st: State): State {
    st.(errors := st.errors + 1)
  }

  datatype Attached = Attached(texts: seq<Text>, rest: seq<string>, errors: nat) | Failed(outcome: Outcome)

  function PutFirst(t: Text, errors: nat, a: Attached): Attached {
    if a.Failed? then a else Attached([t] + a.texts, a.rest, errors + a.errors)
  }

  function CountErrors(errors: nat, a: Attached): Attached {
    if a.Failed? then a else Attached(a.texts, a.rest, errors + a.errors)
  }

  /** Read the texts in an attribute list. */
  function ReadAttached(format: FileFormat, lines: seq<string>): (a: Attached)
    ensures a.Attached? ==> |a.rest| <= |lines|
    decreases |lines|
  {
    if lines == [] then Attached([], [], 1)
    else
      var line, rest := lines[0], lines[1..];
      if line == "" then ReadAttached(format, rest)
      else if line[0] == '}' then Attached([], rest, 0)
      else if line[0] != 'T' then CountErrors(1, ReadAttached(format, rest))
      else if !IsCurrent(format, 'T') then Failed(OldFormat)
      else
        var p := ReadText(line, rest);
        if p.Raised? then Failed(Exception)
        else if p.data.None? then CountErrors(p.errors, ReadAttached(format, p.rest))
        else if !TextIsValid(p.data.value) then Failed(Exception)
        else PutFirst(p.data.value, p.errors, ReadAttached(format, p.rest))
  }

  predicate TextIsValid(t: Text) {
    var d: Data<Symbol, Pixmap> := TextData(t);
    DataIsValid(d)
  }

  function AttachTo(o: Obj, texts: seq<Text>): Obj {
    Obj(o.data, o.attached + texts)
  }

  /** Put the objects which have been read into the symbol of a component. */
  function FillSymbol(o: Obj, objs: seq<Obj>): Obj
    requires o.data.ComponentData?
  {
    var c := o.data.component;
    Obj(ComponentData(c.(symbol := c.symbol.(contents := Contents(objs)))), o.attached)
  }

  /** Why a symbol can't start here, or whether it can. */
  predicate SymbolMayStart(o: Obj) {
    IsEmbedded(o) && o.data.component.symbol.contents.Missing?
  }

  ghost predicate AreValid(objs: seq<Obj>) {
    forall i :: 0 <= i < |objs| ==> DataIsValid(objs[i].data)
  }

  /** All objects are valid, and each outer context ends with the component
      whose symbol is being read. */
  ghost predicate IsGood(st: State) {
    && AreValid(st.objs)
    && (st.last.LastObject? ==> st.objs != [])
    && (forall i :: 0 <= i < |st.stack| ==>
          AreValid(st.stack[i]) && st.stack[i] != [] && SymbolMayStart(st.stack[i][|st.stack[i]| - 1]))
  }

  datatype Step = Step(st: State, rest: seq<string>) | Stop(outcome: Outcome)

  /** Append an object. */
  function Add(st: State, d: Data<Symbol, Pixmap>, errors: nat): (r: State)
    requires IsGood(st) && DataIsValid(d)
    ensures IsGood(r)
  {
    NormalizeMakesStorable(d);
    st.(objs := st.objs + [Obj(Normalize(d), [])], last := LastObject, errors := st.errors + errors)
  }

  function ReadNewObject(st: State, line: string, rest: seq<string>, load: Loaders): (s: Step)
    requires line != "" && IsObjectType(line[0]) && IsGood(st)
    ensures s.Step? ==> |s.rest| <= |rest| && IsGood(s.st)
  {
    if !IsCurrent(st.format, line[0]) then Stop(OldFormat)
    else
      var p := ReadObject(line[0], line, rest, load);
      if p.Raised? then Stop(Exception)
      else if p.data.None? then Step(st.(errors := st.errors + p.errors), p.rest)
      else if !DataIsValid(p.data.value) then Stop(Exception)
      else Step(Add(st, p.data.value, p.errors), p.rest)
  }

  /** Read an attribute list, attaching the texts to the last object. */
  function ReadAttributes(st: State, rest: seq<string>): (s: Step)
    requires IsGood(st)
    ensures s.Step? ==> |s.rest| <= |rest| && IsGood(s.st)
  {
    if st.last.Nothing? then Step(Complain(st), rest)
    else if st.last.Outside? then Stop(Exception)
    else
      var n := |st.objs| - 1;
      if !CanHaveChildren(st.objs[n].data) then Step(Complain(st), rest)
      else
        var a := ReadAttached(st.format, rest);
        if a.Failed? then Stop(a.outcome)
        else
          Step(st.(objs := st.objs[n := AttachTo(st.objs[n], a.texts)], last := Nothing,
                   errors := st.errors + a.errors), a.rest)
  }

  function StartSymbol(st: State, rest: seq<string>): (s: Step)
    requires IsGood(st)
    ensures s.Step? ==> |s.rest| <= |rest| && IsGood(s.st)
  {
    if st.last.Nothing? then Step(Complain(st), rest)
    else if st.last.Outside? then Stop(Exception)
    else if !SymbolMayStart(st.objs[|st.objs| - 1]) then Step(Complain(st), rest)
    else Step(st.(objs := [], last := Outside, stack := st.stack + [st.objs]), rest)
  }

  function EndSymbol(st: State, rest: seq<string>): (s: Step)
    requires IsGood(st)
    ensures s.Step? ==> |s.rest| <= |rest| && IsGood(s.st)
  {
    if st.stack == [] then Step(Complain(st), rest)
    else
      var k := |st.stack| - 1;
      var outer := st.stack[k];
      var n := |outer| - 1;
      Step(st.(objs := outer[n := FillSymbol(outer[n], st.objs)], last := LastObject, stack := st.stack[..k]), rest)
  }

  /** Process a line and all further lines which belong to it. */
  function ReadItem(st: State, line: string, rest: seq<string>, load: Loaders): (s: Step)
    requires line != "" && IsGood(st)
    ensures s.Step? ==> |s.rest| <= |rest| && IsGood(s.st)
  {
    var c := line[0];
    if IsObjectType(c) then ReadNewObject(st, line, rest, load)
    else if c == '{' then ReadAttributes(st, rest)
    else if c == '[' then StartSymbol(st, rest)
    else if c == ']' then EndSymbol(st, rest)
    else if c == '}' then Step(Complain(st), rest)
    else if c == 'F' || c == '#' then Step(st, rest)
    else if c == 'v' then
      var f := ParseVersion(line);
      Step(if f.Some? then st.(format := f.value) else Complain(st), rest)
    else Step(Complain(st), rest)
  }

  // Finishing

  /** The name of an attribute, if a text is one: there is something before and
      after the first equals sign, and no space next to it. */
  function AttributeName(s: string): Option<string> {
    var n := IndexOfEquals(s);
    if n == |s| || n == 0 || n == |s| - 1 then None
    else if s[n - 1] == ' ' || s[n + 1] == ' ' then None
    else Some(s[..n])
  }

  function IndexOfEquals(s: string): (n: nat)
    ensures n <= |s|
  {
    if s == "" || s[0] == '=' then 0 else 1 + IndexOfEquals(s[1..])
  }

  /** The visibility of the last text which is an attribute of a certain name. */
  function VisibilityOf(texts: seq<Text>, name: string): Option<bool> {
    if texts == [] then None
    else
      var n := |texts| - 1;
      if AttributeName(texts[n].text) == Some(name) then Some(texts[n].visibility)
      else VisibilityOf(texts[..n], name)
  }

  /** An inherited attribute is as visible as the attached attribute which
      overwrites it. */
  function Unhide(d: Data<Symbol, Pixmap>, texts: seq<Text>): Data<Symbol, Pixmap> {
    if d.TextData? && AttributeName(d.text.text).Some? then
      var v := VisibilityOf(texts, AttributeName(d.text.text).value);
      if v.Some? then TextData(d.text.(visibility := v.value)) else d
    else d
  }

  function UnhideAll(objs: seq<Obj>, texts: seq<Text>): (r: seq<Obj>)
    ensures |r| == |objs|
    ensures forall i :: 0 <= i < |r| ==> r[i] == Obj(Unhide(objs[i].data, texts), objs[i].attached)
  {
    if objs == [] then []
    else [Obj(Unhide(objs[0].data, texts), objs[0].attached)] + UnhideAll(objs[1..], texts)
  }

  /** Rotate and translate the contents of an embedded symbol back to normal. */
  function FinishObject(o: Obj): Obj
    requires DataIsValid(o.data)
  {
    if IsEmbedded(o) && HasContents(o) then
      FillSymbol(o, UnhideAll(UnplaceAll(Inner(o), PlacementOf(o.data.component)), o.attached))
    else o
  }

  function FinishAll(objs: seq<Obj>): (r: seq<Obj>)
    requires AreValid(objs)
    ensures |r| == |objs|
    ensures forall i :: 0 <= i < |r| ==> r[i] == FinishObject(objs[i])
  {
    if objs == [] then []
    else
      assert forall i :: 0 <= i < |objs[1..]| ==> objs[1..][i] == objs[i + 1];
      [FinishObject(objs[0])] + FinishAll(objs[1..])
  }

  /** The number of embedded symbols which are missing. */
  function MissingSymbols(objs: seq<Obj>): nat {
    if objs == [] then 0
    else (if IsEmbedded(objs[0]) && !HasContents(objs[0]) then 1 else 0) + MissingSymbols(objs[1..])
  }

  predicate HasPin(objs: seq<Obj>) {
    exists i :: 0 <= i < |objs| && objs[i].data.NetData? && objs[i].data.net.isPin
  }

  /** What happens at the end of the file. */
  function Finish(st: State): Outcome
    requires IsGood(st)
  {
    Finished(FinishAll(st.objs),
             st.errors + MissingSymbols(st.objs) + if !HasEnhancedPins(st.format) && HasPin(st.objs) then 1 else 0)
  }

  /** Process the remaining lines of a file. */
  function ReadItems(st: State, lines: seq<string>, load: Loaders): Outcome
    requires IsGood(st)
    decreases |lines|
  {
    if lines == [] then Finish(st)
    else if lines[0] == "" then ReadItems(st, lines[1..], load)
    else
      var s := ReadItem(st, lines[0], lines[1..], load);
      if s.Stop? then s.outcome else ReadItems(s.st, s.rest, load)
  }

  /** A line with a carriage return at its end removed. */
  function StripReturn(line: string): string {
    if |line| >= 2 && line[|line| - 2] == '\r' && line[|line| - 1] == '\n' then line[..|line| - 2] + "\n"
    else line
  }

  function StripReturns(lines: seq<string>): (r: seq<string>)
    ensures |r| == |lines|
    ensures forall i :: 0 <= i < |r| ==> r[i] == StripReturn(lines[i])
  {
    seq(|lines|, i requires 0 <= i < |lines| => StripReturn(lines[i]))
  }

  function FileContents(text: string, load: Loaders): Outcome {
    ReadItems(START, StripReturns(SplitLines(text)), load)
  }
}
