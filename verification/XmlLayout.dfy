/** How a document is laid out: writing the elements of a tree one after another
    gives the text of the tree, in which each element and each run of data is on
    lines of its own and indented by its depth, except where white space is
    preserved. */
module XmlLayout {
  import opened Wrappers
  import opened Sequences
  import opened XmlNames
  import opened XmlReader
  import opened XmlEscape
  import opened XmlFormatting
  import opened XmlWriter

  datatype Part =
    | Element(name: string, preserve: bool, attrs: Attributes, children: seq<Part>)
    | Data(data: string)
    | Section(data: string)

  // The calls for a tree

  function AttributeCalls(attrs: Attributes): seq<Call> {
    if attrs == [] then []
    else
      var n := |attrs| - 1;
      AttributeCalls(attrs[..n]) + [WriteAttribute(attrs[n].0, attrs[n].1)]
  }

  function Calls(part: Part): seq<Call> {
    match part
    case Element(name, preserve, attrs, children) =>
      [StartElement(name, preserve)] + AttributeCalls(attrs) + CallsOfAll(children) + [EndElement]
    case Data(data) => [WriteCharacterData(data)]
    case Section(data) => [WriteCdataSection(data)]
  }

  function CallsOfAll(parts: seq<Part>): seq<Call> {
    if parts == [] then [] else Calls(parts[0]) + CallsOfAll(parts[1..])
  }

  // The text of a tree

  /** Two spaces for each level. */
  function Indent(depth: nat): string {
    if depth == 0 then "" else "  " + Indent(depth - 1)
  }

  function AttributesText(attrs: Attributes): string {
    if attrs == [] then ""
    else
      var n := |attrs| - 1;
      AttributesText(attrs[..n]) + (" " + attrs[n].0 + "=\"" + Escape(attrs[n].1) + "\"")
  }

  function DataText(part: Part): string
    requires !part.Element?
  {
    if part.Data? then Escape(part.data) else "<![CDATA[" + SplitSections(part.data) + "]]>"
  }

  /** Parts inside of an element which preserves white space. */
  function FlatText(part: Part): string {
    match part
    case Element(name, _, attrs, children) =>
      "<" + name + AttributesText(attrs) +
      if children == [] then "/>" else ">" + FlatTexts(children) + "</" + name + ">"
    case _ => DataText(part)
  }

  function FlatTexts(parts: seq<Part>): string {
    if parts == [] then "" else FlatText(parts[0]) + FlatTexts(parts[1..])
  }

  /** The start of the tag of an element. */
  function TagText(part: Part): string
    requires part.Element?
  {
    "<" + part.name + AttributesText(part.attrs)
  }

  /** An element on lines of its own. */
  function BlockText(part: Part, depth: nat): string
    requires part.Element?
  {
    if part.preserve then FlatText(part) + "\n"
    else if part.children == [] then TagText(part) + "/>\n"
    else
      TagText(part) + ">\n" + BlockTexts(part.children, depth + 1, false)
      + Indent(depth) + "</" + part.name + ">\n"
  }

  /** Some parts, the first of which may continue a run of data. */
  function BlockTexts(parts: seq<Part>, depth: nat, inData: bool): string {
    if parts == [] then if inData then "\n" else ""
    else if parts[0].Element? then
      (if inData then "\n" else "") + Indent(depth) + BlockText(parts[0], depth) + BlockTexts(parts[1..], depth, false)
    else
      (if inData then "" else Indent(depth)) + DataText(parts[0]) + BlockTexts(parts[1..], depth, true)
  }

  // Which trees can be written

  ghost predicate HaveGoodKeys(attrs: Attributes) {
    && (forall i :: 0 <= i < |attrs| ==> ValidName(attrs[i].0) && '\n' !in attrs[i].1)
    && (forall i, j :: 0 <= i < j < |attrs| ==> attrs[i].0 != attrs[j].0)
  }

  ghost predicate IsPossible(part: Part) {
    part.Element? ==> ValidName(part.name) && HaveGoodKeys(part.attrs) && ArePossible(part.children)
  }

  ghost predicate ArePossible(parts: seq<Part>) {
    forall i :: 0 <= i < |parts| ==> IsPossible(parts[i])
  }

  // Making some calls one after another

  function After(w: State, calls: seq<Call>): State {
    if calls == [] then w
    else
      var n := |calls| - 1;
      var v := After(w, calls[..n]);
      var next := Apply(v, calls[n]);
      if next.None? then v else next.value
  }

  lemma {:induction false} RunIsAfter(calls: seq<Call>)
    ensures Run(calls).0 == After(FRESH, calls)
  {
    hide Apply, Recorded;
    if calls != [] {
      RunIsAfter(calls[..|calls| - 1]);
    }
  }

  lemma {:induction false} AfterSum(w: State, a: seq<Call>, b: seq<Call>)
    ensures After(w, a + b) == After(After(w, a), b)
    decreases |b|
  {
    hide Apply;
    if b == [] {
      assert a + b == a;
    } else {
      var n := |b| - 1;
      AfterSum(w, a, b[..n]);
      assert (a + b)[..|a + b| - 1] == a + b[..n];
    }
  }

  lemma AfterOne(w: State, call: Call)
    ensures After(w, [call]) == if Apply(w, call).None? then w else Apply(w, call).value
  {
    hide Apply;
    assert [call][..0] == [];
  }

  lemma {:induction false} IndentIsIndentation(n: nat)
    ensures Indent(n) == Indentation(n)
  {
    if n > 0 {
      IndentIsIndentation(n - 1);
      assert Indentation(n) == "  " + Indentation(n - 1);
    }
  }

  // Attributes

  lemma {:induction false} AttributesAreWritten(w: State, attrs: Attributes)
    requires w.phase.StartTag? && w.keys == {} && HaveGoodKeys(attrs)
    ensures
      var v := After(w, AttributeCalls(attrs));
      v == w.(text := w.text + AttributesText(attrs), keys := set k | k in Keys(attrs))
    decreases |attrs|
  {
    hide Escape, ValidName;
    if attrs == [] {
      assert w.text + "" == w.text;
      assert (set k | k in Keys(attrs)) == {};
    } else {
      var n := |attrs| - 1;
      AttributesAreWritten(w, attrs[..n]);
      AfterSum(w, AttributeCalls(attrs[..n]), [WriteAttribute(attrs[n].0, attrs[n].1)]);
      var v := After(w, AttributeCalls(attrs[..n]));
      AfterOne(v, WriteAttribute(attrs[n].0, attrs[n].1));
      assert attrs[n].0 !in v.keys by {
        KeyIsNew(attrs);
      }
      MoreKeys(attrs);
      Associative(w.text, AttributesText(attrs[..n]), " " + attrs[n].0 + "=\"" + Escape(attrs[n].1) + "\"");
    }
  }

  lemma KeyIsNew(attrs: Attributes)
    requires attrs != [] && HaveGoodKeys(attrs)
    ensures attrs[|attrs| - 1].0 !in Keys(attrs[..|attrs| - 1])
  {
  }

  lemma MoreKeys(attrs: Attributes)
    requires attrs != []
    ensures
      var n := |attrs| - 1;
      (set k | k in Keys(attrs)) == (set k | k in Keys(attrs[..n])) + {attrs[n].0}
  {
    var n := |attrs| - 1;
    assert Keys(attrs) == Keys(attrs[..n]) + [attrs[n].0];
  }

  // Parts of an element

  /** Between two tags. */
  ghost predicate IsBetween(w: State) {
    w.isInitialized && w.hasRoot && !w.phase.StartTag? && w.keys == {}
  }

  /** Inside of an element which preserves white space. */
  ghost predicate IsFlat(w: State) {
    w.stack != [] && w.preserveDepth.Some? && w.preserveDepth.value < |w.stack|
  }

  function PhaseAfter(part: Part): Phase {
    if part.Element? then Idle else CharacterData
  }

  /** The state after the start of an element, up to the end of its start tag. */
  function TagState(w: State, part: Part, space: string): State
    requires part.Element?
  {
    w.(text := w.text + (space + "<" + part.name + AttributesText(part.attrs)),
       preserveDepth := if part.preserve && w.preserveDepth.None? then Some(|w.stack|) else w.preserveDepth,
       stack := w.stack + [part.name], phase := StartTag, keys := set k | k in Keys(part.attrs))
  }

  lemma TagIsWritten(w: State, part: Part)
    requires part.Element? && IsPossible(part) && IsBetween(w) && w.stack != []
    ensures After(w, [StartElement(part.name, part.preserve)] + AttributeCalls(part.attrs))
      == TagState(w, part, Layout(w, w.phase.CharacterData?, |w.stack|))
  {
    hide Escape, ValidName, Layout, AttributesText;
    var call := StartElement(part.name, part.preserve);
    AfterSum(w, [call], AttributeCalls(part.attrs));
    AfterOne(w, call);
    var space := Layout(w, w.phase.CharacterData?, |w.stack|);
    var v := Pushed(With(With(w, space), "<" + part.name), part.name, part.preserve);
    assert Apply(w, call) == Wrappers.Some(v);
    AttributesAreWritten(v, part.attrs);
    Associative(w.text, space, "<" + part.name);
    Associative(w.text, space + ("<" + part.name), AttributesText(part.attrs));
    Associative(space, "<", part.name);
  }

  /** The first part of an element ends its start tag. */
  lemma FirstPartPrepares(w: State, parts: seq<Part>)
    requires parts != [] && ArePossible(parts) && w.isInitialized && w.hasRoot && w.stack != []
    ensures After(w, CallsOfAll(parts)) == After(TagFinished(w), CallsOfAll(parts))
  {
    CallsStart(parts);
    hide Apply, CallsOfAll, FirstCall, HaveGoodKeys, ValidName;
    var call := FirstCall(parts[0]);
    var rest := CallsOfAll(parts)[1..];
    assert IsPossible(parts[0]);
    FirstCallPrepares(w, parts[0]);
    AfterSum(w, [call], rest);
    AfterSum(TagFinished(w), [call], rest);
    AfterOne(w, call);
    AfterOne(TagFinished(w), call);
  }

  function FirstCall(part: Part): Call {
    match part
    case Element(name, preserve, _, _) => StartElement(name, preserve)
    case Data(data) => WriteCharacterData(data)
    case Section(data) => WriteCdataSection(data)
  }

  lemma FirstCallPrepares(w: State, part: Part)
    requires IsPossible(part) && w.isInitialized && w.hasRoot && w.stack != []
    ensures Apply(w, FirstCall(part)) == Apply(TagFinished(w), FirstCall(part)) && Apply(w, FirstCall(part)).Some?
  {
    hide ValidName, Layout, Escape, SplitSections, HaveGoodKeys, ArePossible;
    assert Prepared(w) == TagFinished(w) && Prepared(TagFinished(w)) == TagFinished(w);
    assert Prepared(Rooted(w)) == TagFinished(w) && Prepared(Rooted(TagFinished(w))) == TagFinished(w);
  }

  lemma CallsStart(parts: seq<Part>)
    requires parts != []
    ensures CallsOfAll(parts) != [] && CallsOfAll(parts) == [FirstCall(parts[0])] + CallsOfAll(parts)[1..]
  {
    var calls := Calls(parts[0]);
    assert calls != [] && calls[0] == FirstCall(parts[0]);
  }

  lemma DataIsWritten(w: State, part: Part)
    requires !part.Element? && IsBetween(w) && w.stack != []
    ensures After(w, Calls(part)) ==
      w.(text := w.text + ((if w.phase.Idle? then Layout(w, false, |w.stack|) else "") + DataText(part)), phase := CharacterData)
  {
    hide Escape, SplitSections, Layout;
    AfterOne(w, FirstCall(part));
    Associative(w.text, if w.phase.Idle? then Layout(w, false, |w.stack|) else "", DataText(part));
  }

  /** The state after the end of an element. */
  function EndState(w: State, v: State, s: string): State {
    v.(text := v.text + s + (if w.preserveDepth.None? then "\n" else ""),
       stack := w.stack, preserveDepth := w.preserveDepth, phase := Idle, keys := {})
  }

  /** Ending an element whose start was in a state w. */
  lemma EndIsWritten(w: State, v: State, name: string, preserve: bool)
    requires v.stack == w.stack + [name]
    requires w.preserveDepth.Some? ==> w.preserveDepth.value < |w.stack|
    requires v.preserveDepth == if preserve && w.preserveDepth.None? then Some(|w.stack|) else w.preserveDepth
    ensures After(v, [EndElement]) ==
      EndState(w, v, if v.phase.StartTag? then "/>" else Layout(v, v.phase.CharacterData?, |w.stack|) + ("</" + name + ">"))
  {
    hide Layout;
    AfterOne(v, EndElement);
    var n := |w.stack|;
    assert v.stack[..n] == w.stack && v.stack[n] == name;
    Associative(v.text, Layout(v, v.phase.CharacterData?, n), "</" + name + ">");
  }

  lemma ElementCalls(w: State, part: Part)
    requires part.Element?
    ensures
      var tag := After(w, [StartElement(part.name, part.preserve)] + AttributeCalls(part.attrs));
      After(w, Calls(part)) == After(After(tag, CallsOfAll(part.children)), [EndElement])
  {
    hide After, AttributeCalls, CallsOfAll;
    var start := [StartElement(part.name, part.preserve)] + AttributeCalls(part.attrs);
    AfterSum(w, start, CallsOfAll(part.children));
    AfterSum(w, start + CallsOfAll(part.children), [EndElement]);
  }

  // Where white space is preserved

  lemma FlatTextOf(part: Part)
    requires part.Element?
    ensures FlatText(part) == TagText(part) +
      if part.children == [] then "/>" else ">" + FlatTexts(part.children) + "</" + part.name + ">"
  {
  }

  lemma {:induction false} FlatIsWritten(w: State, part: Part)
    requires IsPossible(part) && IsBetween(w) && IsFlat(w)
    ensures After(w, Calls(part)) == w.(text := w.text + FlatText(part), phase := PhaseAfter(part))
    decreases part, 1
  {
    hide FlatText, ArePossible, Calls, DataText, ValidName, HaveGoodKeys, After, CallsOfAll, TagState, Apply;
    if part.Element? {
      ElementCalls(w, part);
      TagIsWritten(w, part);
      FlatElementEnds(w, part, "");
      assert w.text + "" + FlatText(part) + "" == w.text + FlatText(part);
    } else {
      DataIsWritten(w, part);
      FlatData(part);
      assert "" + DataText(part) == DataText(part);
    }
  }

  lemma FlatData(part: Part)
    requires !part.Element?
    ensures FlatText(part) == DataText(part)
  {
  }

  /** The rest of an element on one line, whose start tag has been written. */
  lemma {:induction false} FlatElementEnds(w: State, part: Part, space: string)
    requires part.Element? && IsPossible(part) && IsBetween(w)
    requires IsFlat(w) || (w.preserveDepth.None? && part.preserve)
    ensures
      var tag := TagState(w, part, space);
      After(After(tag, CallsOfAll(part.children)), [EndElement]) == EndState(w, w.(text := w.text + space), FlatText(part))
    decreases part, 0
  {
    hide FlatText, FlatTexts, After, CallsOfAll, ValidName, HaveGoodKeys, AttributesText, ArePossible, EndState, Apply;
    var tag := TagState(w, part, space);
    if part.children == [] {
      NoCalls(tag);
      FlatEmptyEnds(w, part, space);
    } else {
      var v := TagFinished(tag);
      FirstPartPrepares(tag, part.children);
      FlatsAreWritten(v, part.children);
      FlatFullEnds(w, part, space, PhaseAfter(part.children[|part.children| - 1]));
    }
  }

  lemma NoCalls(w: State)
    ensures After(w, CallsOfAll([])) == w
  {
  }

  lemma FlatEmptyEnds(w: State, part: Part, space: string)
    requires part.Element? && part.children == []
    requires IsFlat(w) || (w.preserveDepth.None? && part.preserve)
    ensures After(TagState(w, part, space), [EndElement]) == EndState(w, w.(text := w.text + space), FlatText(part))
  {
    hide FlatText, After, AttributesText;
    var tag := TagState(w, part, space);
    EndIsWritten(w, tag, part.name, part.preserve);
    FlatTextOf(part);
    Associative(w.text, space, TagText(part));
    Associative(space, "<", part.name);
    Associative(space, "<" + part.name, AttributesText(part.attrs));
    Associative(w.text + space, TagText(part), "/>");
  }

  lemma FlatFullEnds(w: State, part: Part, space: string, phase: Phase)
    requires part.Element? && part.children != [] && !phase.StartTag?
    requires IsFlat(w) || (w.preserveDepth.None? && part.preserve)
    ensures
      var v := TagFinished(TagState(w, part, space));
      After(v.(text := v.text + FlatTexts(part.children), phase := phase), [EndElement])
        == EndState(w, w.(text := w.text + space), FlatText(part))
  {
    hide FlatText, FlatTexts, After, AttributesText;
    var tag := TagState(w, part, space);
    var v := TagFinished(tag);
    var u := v.(text := v.text + FlatTexts(part.children), phase := phase);
    EndIsWritten(w, u, part.name, part.preserve);
    FlatTextOf(part);
    Associative(w.text, space, TagText(part));
    Associative(space, "<", part.name);
    Associative(space, "<" + part.name, AttributesText(part.attrs));
    Regroup(w.text + space, TagText(part), FlatTexts(part.children), part.name);
    assert "" + ("</" + part.name + ">") == "</" + part.name + ">";
  }

  lemma Regroup(start: string, tag: string, content: string, name: string)
    ensures start + tag + ">" + content + ("</" + name + ">") == start + (tag + (">" + content + "</" + name + ">"))
  {
    var last := "</" + name + ">";
    assert ">" + content + "</" + name + ">" == ">" + content + last;
    Associative(start + tag, ">", content);
    Associative(start + tag, ">" + content, last);
    Associative(start, tag, ">" + content + last);
  }

  lemma {:induction false} FlatsAreWritten(w: State, parts: seq<Part>)
    requires ArePossible(parts) && IsBetween(w) && IsFlat(w)
    ensures After(w, CallsOfAll(parts)) ==
      w.(text := w.text + FlatTexts(parts), phase := if parts == [] then w.phase else PhaseAfter(parts[|parts| - 1]))
    decreases parts, 2
  {
    hide FlatText, After, Calls, IsPossible, PhaseAfter, Apply;
    if parts == [] {
      NoCalls(w);
      assert w.text + "" == w.text;
    } else {
      AfterSum(w, Calls(parts[0]), CallsOfAll(parts[1..]));
      FlatIsWritten(w, parts[0]);
      PhaseIsNoTag(parts[0]);
      var v := w.(text := w.text + FlatText(parts[0]), phase := PhaseAfter(parts[0]));
      FlatsAreWritten(v, parts[1..]);
      Associative(w.text, FlatText(parts[0]), FlatTexts(parts[1..]));
      if |parts| > 1 {
        assert parts[1..][|parts[1..]| - 1] == parts[|parts| - 1];
      }
    }
  }

  lemma PhaseIsNoTag(part: Part)
    ensures !PhaseAfter(part).StartTag?
    ensures PhaseAfter(part).CharacterData? <==> !part.Element?
  {
  }

  // Where white space is inserted

  /** Outside of elements which preserve white space. */
  ghost predicate IsBlock(w: State) {
    IsBetween(w) && w.preserveDepth.None?
  }

  lemma BlockLayout(w: State, onNewLine: bool, depth: nat)
    requires w.preserveDepth.None?
    ensures Layout(w, onNewLine, depth) == (if onNewLine then "\n" else "") + Indent(depth)
  {
    IndentIsIndentation(depth);
  }

  /** The rest of an element on lines of its own, whose start tag has been
      written. */
  lemma {:induction false} BlockEnds(w: State, part: Part, space: string)
    requires part.Element? && IsPossible(part) && IsBlock(w)
    ensures
      var tag := TagState(w, part, space);
      After(After(tag, CallsOfAll(part.children)), [EndElement])
        == w.(text := w.text + space + BlockText(part, |w.stack|), phase := Idle)
    decreases part, 0
  {
    hide FlatText, After, CallsOfAll, ValidName, HaveGoodKeys, AttributesText, ArePossible, Apply, BlockTexts, BlockText;
    var tag := TagState(w, part, space);
    if part.preserve {
      FlatElementEnds(w, part, space);
      PreservedBlock(part, |w.stack|);
      Associative(w.text + space, FlatText(part), "\n");
    } else if part.children == [] {
      NoCalls(tag);
      EmptyBlockEnds(w, part, space);
    } else {
      var v := TagFinished(tag);
      FirstPartPrepares(tag, part.children);
      BlocksAreWritten(v, part.children);
      FullBlockEnds(w, part, space, After(v, CallsOfAll(part.children)));
    }
  }

  lemma PreservedBlock(part: Part, depth: nat)
    requires part.Element? && part.preserve
    ensures BlockText(part, depth) == FlatText(part) + "\n"
  {
  }

  lemma EmptyBlockEnds(w: State, part: Part, space: string)
    requires part.Element? && part.children == [] && !part.preserve && IsBlock(w)
    ensures After(TagState(w, part, space), [EndElement])
      == w.(text := w.text + space + BlockText(part, |w.stack|), phase := Idle)
  {
    hide After, AttributesText;
    EndIsWritten(w, TagState(w, part, space), part.name, part.preserve);
    Associative(w.text, space, TagText(part));
    Associative(space, "<", part.name);
    Associative(space, "<" + part.name, AttributesText(part.attrs));
    Associative(w.text + space, TagText(part), "/>");
    Associative(w.text + space, TagText(part) + "/>", "\n");
    Associative(TagText(part), "/>", "\n");
    assert "/>" + "\n" == "/>\n";
  }

  lemma FullBlockEnds(w: State, part: Part, space: string, u: State)
    requires part.Element? && part.children != [] && !part.preserve && IsBlock(w)
    requires
      var v := TagFinished(TagState(w, part, space));
      && !u.phase.StartTag? && u == v.(text := u.text, phase := u.phase)
      && u.text + (if u.phase.CharacterData? then "\n" else "") == v.text + BlockTexts(part.children, |w.stack| + 1, false)
    ensures After(u, [EndElement]) == w.(text := w.text + space + BlockText(part, |w.stack|), phase := Idle)
  {
    hide After, AttributesText, BlockTexts, Layout;
    var tag := TagState(w, part, space);
    var n, last := |w.stack|, "</" + part.name + ">";
    var content := BlockTexts(part.children, n + 1, false);
    EndIsWritten(w, u, part.name, part.preserve);
    BlockLayout(u, u.phase.CharacterData?, n);
    Associative(w.text, space, TagText(part));
    Associative(space, "<", part.name);
    Associative(space, "<" + part.name, AttributesText(part.attrs));
    Associative(u.text, if u.phase.CharacterData? then "\n" else "", Indent(n));
    Associative(u.text, (if u.phase.CharacterData? then "\n" else "") + Indent(n), last);
    assert tag.text == w.text + space + TagText(part);
    RegroupBlock(w.text + space, TagText(part), content, Indent(n), part.name);
  }

  lemma RegroupBlock(start: string, tag: string, content: string, indent: string, name: string)
    ensures start + tag + ">\n" + content + indent + ("</" + name + ">") + "\n"
         == start + (tag + ">\n" + content + indent + "</" + name + ">\n")
  {
    var body := tag + ">\n" + content + indent;
    Associative(start, tag, ">\n");
    Associative(start, tag + ">\n", content);
    Associative(start, tag + ">\n" + content, indent);
    assert "</" + name + ">" + "\n" == "</" + name + ">\n";
    Associative(start + body, "</" + name + ">", "\n");
    Associative(start, body, "</" + name + ">\n");
    Associative(body, "</" + name, ">\n");
    Associative(body, "</", name);
    assert body + "</" + name + ">\n" == body + ("</" + name + ">\n");
  }

  lemma {:induction false} BlockIsWritten(w: State, part: Part)
    requires part.Element? && IsPossible(part) && IsBlock(w) && w.stack != []
    ensures After(w, Calls(part)) ==
      w.(text := w.text + ((if w.phase.CharacterData? then "\n" else "") + Indent(|w.stack|) + BlockText(part, |w.stack|)),
         phase := Idle)
    decreases part, 1
  {
    hide ArePossible, Calls, ValidName, HaveGoodKeys, After, CallsOfAll, TagState, Apply, BlockText, Layout;
    var space := (if w.phase.CharacterData? then "\n" else "") + Indent(|w.stack|);
    ElementCalls(w, part);
    TagIsWritten(w, part);
    BlockLayout(w, w.phase.CharacterData?, |w.stack|);
    BlockEnds(w, part, space);
    Associative(w.text, space, BlockText(part, |w.stack|));
  }

  /** Parts on lines of their own; a run of data has only got its line feed when it
      is complete. */
  lemma {:induction false} BlocksAreWritten(w: State, parts: seq<Part>)
    requires ArePossible(parts) && IsBlock(w) && w.stack != []
    ensures
      var u := After(w, CallsOfAll(parts));
      && !u.phase.StartTag? && u == w.(text := u.text, phase := u.phase)
      && u.text + (if u.phase.CharacterData? then "\n" else "")
           == w.text + BlockTexts(parts, |w.stack|, w.phase.CharacterData?)
    decreases parts, 2
  {
    hide BlockText, After, Calls, IsPossible, Apply, DataText, Layout;
    if parts == [] {
      NoCalls(w);
    } else {
      var part, depth := parts[0], |w.stack|;
      AfterSum(w, Calls(part), CallsOfAll(parts[1..]));
      if part.Element? {
        BlockIsWritten(w, part);
        var first := (if w.phase.CharacterData? then "\n" else "") + Indent(depth) + BlockText(part, depth);
        BlocksAreWritten(w.(text := w.text + first, phase := Idle), parts[1..]);
        Associative(w.text, first, BlockTexts(parts[1..], depth, false));
      } else {
        DataIsWritten(w, part);
        BlockLayout(w, false, depth);
        assert "" + Indent(depth) == Indent(depth);
        var first := (if w.phase.CharacterData? then "" else Indent(depth)) + DataText(part);
        BlocksAreWritten(w.(text := w.text + first, phase := CharacterData), parts[1..]);
        Associative(w.text, first, BlockTexts(parts[1..], depth, true));
      }
    }
  }

  // Documents

  /** The state in which the tag of the root element is written. */
  const BEGUN := FRESH.(text := DECLARATION + "\n", isInitialized := true, hasRoot := true)

  lemma RootBegins(name: string, preserve: bool)
    requires ValidName(name)
    ensures Apply(FRESH, StartElement(name, preserve)) == Wrappers.Some(Pushed(With(BEGUN, "<" + name), name, preserve))
  {
    hide ValidName;
    var start := DECLARATION + "\n";
    assert "" + start == start && start + "" == start;
    assert Prepared(Rooted(FRESH)) == BEGUN;
    BlockLayout(BEGUN, false, 0);
    assert "" + "" == "";
    hide Prepared, Layout;
    assert With(BEGUN, "") == BEGUN;
  }

  lemma RootTagIsWritten(root: Part)
    requires root.Element? && IsPossible(root)
    ensures After(FRESH, [StartElement(root.name, root.preserve)] + AttributeCalls(root.attrs)) == TagState(BEGUN, root, "")
  {
    hide Escape, ValidName, AttributesText;
    var call := StartElement(root.name, root.preserve);
    AfterSum(FRESH, [call], AttributeCalls(root.attrs));
    AfterOne(FRESH, call);
    var v := Pushed(With(BEGUN, "<" + root.name), root.name, root.preserve);
    RootBegins(root.name, root.preserve);
    AttributesAreWritten(v, root.attrs);
    Associative(BEGUN.text, "<" + root.name, AttributesText(root.attrs));
    assert "" + "<" + root.name == "<" + root.name;
  }

  /** Writing a tree gives the declaration and the text of the tree, and the
      document is complete. */
  lemma TreeIsWritten(root: Part)
    requires root.Element? && IsPossible(root)
    ensures Run(Calls(root)).0.text == DECLARATION + "\n" + BlockText(root, 0)
    ensures IsDone(Run(Calls(root)).0)
  {
    hide Calls, Run, After, CallsOfAll, TagState, BlockText, AttributeCalls, ArePossible, ValidName, HaveGoodKeys;
    RunIsAfter(Calls(root));
    ElementCalls(FRESH, root);
    RootTagIsWritten(root);
    BlockEnds(BEGUN, root, "");
    assert BEGUN.text + "" == BEGUN.text;
  }
}
