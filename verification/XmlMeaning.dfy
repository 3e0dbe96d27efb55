/** What has been written is read as what has been asked for. */
module XmlMeaning {
  import opened Wrappers
  import opened Sequences
  import opened XmlNames
  import opened XmlReader
  import opened XmlEscape
  import opened XmlPieces
  import opened XmlFormatting
  import opened XmlWriter
  import opened XmlReadable
  import XmlTree

  function NamesOf(open: seq<OpenElement>): seq<string> {
    seq(|open|, i requires 0 <= i < |open| => open[i].name)
  }

  /** The writer knows which elements are open and where white space has to be
      preserved. */
  ghost predicate KnowsElements(w: State, doc: Document) {
    && w.stack == NamesOf(doc.open)
    && (w.preserveDepth.Some? ==> w.preserveDepth.value < |doc.open|)
    && (forall i :: 0 <= i < |doc.open| ==>
          (doc.open[i].isPreserved <==> w.preserveDepth.Some? && w.preserveDepth.value <= i))
    && (doc.items != [] ==> doc.items[|doc.items| - 1].isPreserved == IsPreserved(doc.open))
    && (doc.open != [] ==> doc.items != [])
    && (forall i :: 0 <= i < |w.stack| ==> '>' !in w.stack[i])
  }

  /** What is read is the document, between two tags. */
  ghost predicate InContent(w: State, doc: Document, r: Reader) {
    && !w.phase.StartTag? && w.keys == {}
    && r.mode.Content? && r.open == w.stack
    && Formatted(doc.items, r.events)
    && (w.stack == [] ==> w.phase.Idle?)
  }

  /** What is read is the document, inside of the start tag which is its last
      item. */
  ghost predicate InTag(w: State, doc: Document, r: Reader) {
    var n := |doc.items| - 1;
    && w.phase.StartTag? && w.stack != [] && n >= 0 && doc.items[n].event.Open?
    && doc.items[n].event.name == w.stack[|w.stack| - 1]
    && IsTagMode(r.mode, doc.items[n].event.name, doc.items[n].event.attrs)
    && w.keys == (set key | key in Keys(doc.items[n].event.attrs))
    && r.open == w.stack[..|w.stack| - 1]
    && (r.open == [] ==> r.events == [])
    && Formatted(doc.items[..n], r.events)
  }

  ghost predicate Ready(w: State, doc: Document) {
    && KnowsElements(w, doc) && w.isInitialized && w.hasRoot
    && InContent(w, doc, Read(START, w.text))
  }

  ghost predicate Tagging(w: State, doc: Document) {
    && KnowsElements(w, doc) && w.isInitialized && w.hasRoot
    && InTag(w, doc, Read(START, w.text))
  }

  ghost predicate Means(w: State, doc: Document) {
    || (w == FRESH && doc == Document([], []))
    || (doc.items != [] && (Ready(w, doc) || Tagging(w, doc)))
  }

  lemma ReadWith(w: State, s: string)
    ensures Read(START, With(w, s).text) == Read(Read(START, w.text), s)
  {
    ReadSum(START, w.text, s);
  }

  lemma LayoutIsReady(w: State, doc: Document, s: string)
    requires Ready(w, doc) && (forall c :: c in s ==> IsSpace(c)) && (w.preserveDepth.Some? ==> s == "")
    ensures Ready(With(w, s), doc)
  {
    hide Read, IsSpace, Formatted;
    var r := Read(START, w.text);
    ReadWith(w, s);
    if s == "" {
      ReadNothing(r);
    } else {
      ReadSpace(r, s);
      if w.stack != [] {
        assert !IsPreserved(doc.open);
        FormattedSpace(doc.items, r.events, s);
      }
    }
  }

  lemma InitializedIsReady()
    ensures Ready(Initialized(FRESH.(hasRoot := true)), Document([], []))
  {
    hide Read;
    var w := FRESH.(hasRoot := true);
    ReadWith(w, DECLARATION + "\n");
    ReadNothing(START);
    ReadSum(START, DECLARATION, "\n");
    DeclarationIsRead();
    ReadSpace(START.(mode := Content), "\n");
  }

  lemma TagFinishedIsReady(w: State, doc: Document)
    requires Tagging(w, doc)
    ensures Ready(TagFinished(w), doc)
  {
    hide Read, Formatted, IsTagMode;
    var r := Read(START, w.text);
    var n := |doc.items| - 1;
    var e := doc.items[n].event;
    ReadTagEnd(r, e.name, e.attrs);
    FormattedMore(doc.items[..n], r.events, doc.items[n]);
    assert doc.items[..n] + [doc.items[n]] == doc.items;
    assert w.stack == w.stack[..|w.stack| - 1] + [e.name];
    ReadWith(w, ">");
    var p := With(w, ">").(keys := {}, phase := Idle);
    if w.preserveDepth.None? {
      LayoutIsReady(p, doc, "\n");
      Associative(w.text, ">", "\n");
      assert ">" + "\n" == ">\n";
    }
  }

  lemma PreparedIsReady(w: State, doc: Document)
    requires Means(w, doc)
    ensures
      var p := Prepared(w.(hasRoot := true));
      Ready(p, doc) && p.stack == w.stack && p.preserveDepth == w.preserveDepth
  {
    hide TagFinished, Initialized, KnowsElements, InContent, InTag, Read;
    if w == FRESH && doc == Document([], []) {
      InitializedIsReady();
      FreshIsPrepared();
    } else {
      PreparedLater(w);
      if Tagging(w, doc) {
        TagFinishedIsReady(w, doc);
      } else {
        ReadyIsFinished(w, doc);
      }
    }
  }

  lemma FreshIsPrepared()
    ensures
      var w := FRESH.(hasRoot := true);
      Prepared(w) == Initialized(w) && Prepared(w).stack == [] && Prepared(w).preserveDepth.None?
  {
  }

  lemma PreparedLater(w: State)
    requires w.isInitialized && w.hasRoot
    ensures Prepared(w.(hasRoot := true)) == TagFinished(w)
    ensures TagFinished(w).stack == w.stack && TagFinished(w).preserveDepth == w.preserveDepth
  {
  }

  lemma ReadyIsFinished(w: State, doc: Document)
    requires Ready(w, doc)
    ensures TagFinished(w) == w
  {
    hide KnowsElements, Read, Formatted;
  }

  // Starting and ending elements

  lemma PushedKnows(w: State, doc: Document, name: string, preserve: bool)
    requires KnowsElements(w, doc) && '>' !in name
    ensures KnowsElements(Pushed(w, name, preserve), Recorded(doc, StartElement(name, preserve)))
  {
    var more := doc.open + [OpenElement(name, preserve || IsPreserved(doc.open))];
    assert NamesOf(more) == NamesOf(doc.open) + [name];
  }

  lemma PoppedKnows(w: State, doc: Document)
    requires KnowsElements(w, doc) && w.stack != []
    ensures KnowsElements(Popped(w), Recorded(doc, EndElement))
  {
    var n := |doc.open| - 1;
    assert NamesOf(doc.open[..n]) == NamesOf(doc.open)[..n];
  }

  lemma RootedIsReady(w: State, doc: Document)
    requires Means(w, doc)
    ensures
      var p := Prepared(Rooted(w));
      Ready(p, doc) && p.stack == w.stack && p.preserveDepth == w.preserveDepth
  {
    hide Prepared, Read, KnowsElements, Formatted;
    PreparedIsReady(w, doc);
  }

  lemma StartMeans(w: State, doc: Document, name: string, preserve: bool)
    requires Means(w, doc) && Started(w, name, preserve).Some? && IsName(name)
    ensures Means(Started(w, name, preserve).value, Recorded(doc, StartElement(name, preserve)))
  {
    hide Prepared, Layout, Read, IsName, Pushed, KnowsElements;
    RootedIsReady(w, doc);
    var p := Prepared(Rooted(w));
    var space := Layout(p, p.phase.CharacterData?, |p.stack|);
    LayoutIsReady(p, doc, space);
    var q := With(p, space);
    ValidIsClosed(name);
    if p.stack == [] {
      NotStarted(w, doc);
      NothingYet(q, doc);
    }
    StartTagMeans(q, doc, name, preserve);
  }

  lemma ValidIsClosed(name: string)
    requires ValidName(name)
    ensures '>' !in name
  {
  }

  lemma NotStarted(w: State, doc: Document)
    requires Means(w, doc) && w.stack == [] && !w.hasRoot
    ensures doc == Document([], [])
  {
    hide KnowsElements, Read;
  }

  lemma NothingYet(w: State, doc: Document)
    requires Ready(w, doc) && doc == Document([], [])
    ensures Read(START, w.text).events == []
  {
    hide KnowsElements, Read;
  }

  lemma StartTagMeans(w: State, doc: Document, name: string, preserve: bool)
    requires Ready(w, doc) && IsName(name) && '>' !in name
    requires w.stack == [] ==> Read(START, w.text).events == []
    ensures Means(Pushed(With(w, "<" + name), name, preserve), Recorded(doc, StartElement(name, preserve)))
  {
    hide Read, IsName, Formatted, KnowsElements;
    var r := Read(START, w.text);
    ReadWith(w, "<" + name);
    ReadTagStart(r, name);
    WithKnows(w, "<" + name, doc);
    PushedKnows(With(w, "<" + name), doc, name, preserve);
    var more := Recorded(doc, StartElement(name, preserve));
    assert more.items[..|doc.items|] == doc.items;
    assert (w.stack + [name])[..|w.stack|] == w.stack;
  }

  lemma WithKnows(w: State, s: string, doc: Document)
    requires KnowsElements(w, doc)
    ensures KnowsElements(With(w, s), doc)
  {
  }

  /** The writer after an end tag, before a line feed. */
  function PoppedBefore(w: State): State
    requires w.stack != []
  {
    var n := |w.stack| - 1;
    w.(stack := w.stack[..n], preserveDepth := if w.preserveDepth == Some(n) then None else w.preserveDepth,
       phase := Idle, keys := {})
  }

  lemma PoppedIsWith(w: State)
    requires w.stack != []
    ensures Popped(w) == With(PoppedBefore(w), if PoppedBefore(w).preserveDepth.None? then "\n" else "")
  {
  }

  lemma PoppedBeforeKnows(w: State, doc: Document)
    requires KnowsElements(w, doc) && w.stack != []
    ensures KnowsElements(PoppedBefore(w), Recorded(doc, EndElement))
  {
    PoppedKnows(w, doc);
  }

  lemma ClosedMeans(w: State, doc: Document)
    requires KnowsElements(w, doc) && w.stack != [] && w.isInitialized && w.hasRoot
    requires
      var r := Read(START, w.text);
      && r.mode.Content? && r.open == w.stack[..|w.stack| - 1]
      && Formatted(Recorded(doc, EndElement).items, r.events)
    ensures Means(Popped(w), Recorded(doc, EndElement))
  {
    hide Read, KnowsElements, Formatted;
    var p := PoppedBefore(w);
    PoppedBeforeKnows(w, doc);
    PoppedIsWith(w);
    EndIsRecorded(w, doc);
    LayoutIsReady(p, Recorded(doc, EndElement), if p.preserveDepth.None? then "\n" else "");
  }

  lemma EndIsRecorded(w: State, doc: Document)
    requires KnowsElements(w, doc) && w.stack != []
    ensures
      var more := Recorded(doc, EndElement);
      && more.items != [] && more.items[..|doc.items|] == doc.items && |more.items| == |doc.items| + 1
      && more.items[|doc.items|].event == Close(w.stack[|w.stack| - 1])
  {
  }

  lemma EmptyMeans(w: State, doc: Document)
    requires Tagging(w, doc)
    ensures Means(Popped(With(w, "/>")), Recorded(doc, EndElement))
  {
    hide Read, KnowsElements, Formatted, IsTagMode, Popped, Recorded;
    var r := Read(START, w.text);
    var n := |doc.items| - 1;
    var e := doc.items[n].event;
    ReadEmptyTagEnd(r, e.name, e.attrs);
    EmptyIsFormatted(w, doc, r.events);
    ReadWith(w, "/>");
    WithKnows(w, "/>", doc);
    ClosedMeans(With(w, "/>"), doc);
  }

  lemma EmptyIsFormatted(w: State, doc: Document, events: seq<Event>)
    requires KnowsElements(w, doc) && w.stack != [] && doc.items != []
    requires Formatted(doc.items[..|doc.items| - 1], events)
    ensures
      var e := doc.items[|doc.items| - 1].event;
      Formatted(Recorded(doc, EndElement).items, events + [e] + [Close(w.stack[|w.stack| - 1])])
  {
    hide KnowsElements, Formatted, Recorded;
    var n := |doc.items| - 1;
    FormattedMore(doc.items[..n], events, doc.items[n]);
    assert doc.items[..n] + [doc.items[n]] == doc.items;
    EndIsRecorded(w, doc);
    var more := Recorded(doc, EndElement).items;
    FormattedMore(doc.items, events + [doc.items[n].event], more[n + 1]);
    assert more == doc.items + [more[n + 1]];
  }

  lemma EndTagMeans(w: State, doc: Document)
    requires Ready(w, doc) && w.stack != [] && '>' !in w.stack[|w.stack| - 1]
    ensures Means(Popped(With(w, "</" + w.stack[|w.stack| - 1] + ">")), Recorded(doc, EndElement))
  {
    hide Read, KnowsElements, Formatted, Popped, Recorded;
    var name := w.stack[|w.stack| - 1];
    var r := Read(START, w.text);
    ReadEndOfElement(r, name);
    EndIsRecorded(w, doc);
    var more := Recorded(doc, EndElement).items;
    FormattedMore(doc.items, r.events, more[|doc.items|]);
    assert more == doc.items + [more[|doc.items|]];
    ReadWith(w, "</" + name + ">");
    WithKnows(w, "</" + name + ">", doc);
    ClosedMeans(With(w, "</" + name + ">"), doc);
  }

  lemma NamesAreClosed(w: State, doc: Document)
    requires KnowsElements(w, doc) && w.stack != []
    ensures '>' !in w.stack[|w.stack| - 1]
  {
  }

  lemma EndMeans(w: State, doc: Document)
    requires Means(w, doc) && Ended(w).Some?
    ensures Means(Ended(w).value, Recorded(doc, EndElement))
  {
    hide Layout, Read, Popped, KnowsElements, InContent, InTag;
    ReadyPhase(w, doc);
    if Tagging(w, doc) {
      EmptyMeans(w, doc);
    } else {
      var n := |w.stack| - 1;
      var space := Layout(w, w.phase.CharacterData?, n);
      LayoutIsReady(w, doc, space);
      NamesAreClosed(w, doc);
      EndTagMeans(With(w, space), doc);
    }
  }

  lemma ReadyPhase(w: State, doc: Document)
    requires Means(w, doc)
    ensures Tagging(w, doc) <==> w.phase.StartTag?
    ensures w.stack != [] ==> w.isInitialized
  {
    hide Read, KnowsElements, Formatted;
  }

  // Attributes and data

  lemma AttributeMeans(w: State, doc: Document, key: string, value: string)
    requires Means(w, doc) && WithAttribute(w, key, value).Some? && IsName(key) && IsValue(value)
    ensures Means(WithAttribute(w, key, value).value, Recorded(doc, WriteAttribute(key, value)))
  {
    hide Read, KnowsElements, Formatted, IsTagMode, IsName, IsValue, Escape;
    ReadyPhase(w, doc);
    var r := Read(START, w.text);
    var n := |doc.items| - 1;
    var e := doc.items[n].event;
    ReadAttribute(r, e.name, e.attrs, key, value);
    var s := " " + key + "=\"" + Escape(value) + "\"";
    ReadWith(w, s);
    var more := Recorded(doc, WriteAttribute(key, value));
    assert more.items[..n] == doc.items[..n];
    InsideIsTagMode(e.name, e.attrs + [(key, value)]);
    KeysOfOneMore(e.attrs, key, value);
    AttributeKnows(w, s, doc, key, value);
  }

  lemma InsideIsTagMode(name: string, attrs: Attributes)
    ensures IsTagMode(Inside(name, attrs), name, attrs)
  {
  }

  lemma KeysOfOneMore(attrs: Attributes, key: string, value: string)
    ensures (set k | k in Keys(attrs + [(key, value)])) == (set k | k in Keys(attrs)) + {key}
  {
    assert Keys(attrs + [(key, value)]) == Keys(attrs) + [key];
  }

  lemma AttributeKnows(w: State, s: string, doc: Document, key: string, value: string)
    requires KnowsElements(w, doc)
    ensures KnowsElements(With(w, s).(keys := w.keys + {key}), Recorded(doc, WriteAttribute(key, value)))
  {
  }

  /** Data has been encoded in such a way that it is read as what it has been. */
  ghost predicate Encodes(s: string, data: string) {
    forall r: Reader :: r.mode.Content? && r.open != [] ==>
      Read(r, s) == r.(events := r.events + Characters(data))
  }

  lemma DataMeans(w: State, doc: Document, s: string, data: string)
    requires Means(w, doc) && WithData(w, s).Some? && Encodes(s, data)
    ensures Means(WithData(w, s).value, Recorded(doc, WriteCharacterData(data)))
  {
    hide Prepared, Layout, Read, KnowsElements, Formatted;
    PreparedIsReady(w, doc);
    ReadyPhase(w, doc);
    AlreadyStarted(w, doc);
    var p := Prepared(w);
    var space := if p.phase.Idle? then Layout(p, false, |p.stack|) else "";
    LayoutIsReady(p, doc, space);
    var q := With(p, space);
    var r := Read(START, q.text);
    ReadWith(q, s);
    FormattedCharacters(doc.items, r.events, data, IsPreserved(doc.open));
    DataKnows(q, s, doc, data);
  }

  lemma AlreadyStarted(w: State, doc: Document)
    requires Means(w, doc) && w.stack != []
    ensures w.(hasRoot := true) == w && doc.items != []
  {
    hide Read, KnowsElements, Formatted;
  }

  lemma DataKnows(w: State, s: string, doc: Document, data: string)
    requires KnowsElements(w, doc) && doc.items != []
    ensures KnowsElements(With(w, s).(phase := CharacterData), Recorded(doc, WriteCharacterData(data)))
    ensures Recorded(doc, WriteCharacterData(data)).items != []
  {
    if data == "" {
      assert doc.items + CharacterItems(data, IsPreserved(doc.open)) == doc.items;
    }
  }

  lemma EscapedEncodes(data: string)
    requires IsText(data)
    ensures Encodes(Escape(data), data)
  {
    hide Read, Escape;
    forall r: Reader | r.mode.Content? && r.open != []
      ensures Read(r, Escape(data)) == r.(events := r.events + Characters(data))
    {
      EscapedIsRead(r, data);
    }
  }

  lemma SectionEncodes(data: string)
    requires IsText(data)
    ensures Encodes("<![CDATA[" + SplitSections(data) + "]]>", data)
  {
    hide Read, SplitSections;
    forall r: Reader | r.mode.Content? && r.open != []
      ensures Read(r, "<![CDATA[" + SplitSections(data) + "]]>") == r.(events := r.events + Characters(data))
    {
      CdataIsRead(r, data);
    }
  }

  // Every run

  /** The names, data and attribute value in a call can be read as they are. */
  ghost predicate IsProper(call: Call) {
    match call
    case StartElement(name, _) => IsName(name)
    case EndElement => true
    case WriteAttribute(key, value) => IsName(key) && IsValue(value)
    case WriteCharacterData(data) => IsText(data)
    case WriteCdataSection(data) => IsText(data)
  }

  /** This is true for all calls which are permitted. */
  ghost predicate AreProper(calls: seq<Call>) {
    if calls == [] then true
    else
      var n := |calls| - 1;
      && AreProper(calls[..n])
      && (Apply(Run(calls[..n]).0, calls[n]).Some? ==> IsProper(calls[n]))
  }

  lemma ApplyMeans(w: State, doc: Document, call: Call)
    requires Means(w, doc) && Apply(w, call).Some? && IsProper(call)
    ensures Means(Apply(w, call).value, Recorded(doc, call))
  {
    hide Means, Escape, SplitSections, Started, Ended, WithAttribute, WithData, IsName, IsText, IsValue, Read;
    match call
    case StartElement(name, preserve) => StartMeans(w, doc, name, preserve);
    case EndElement => EndMeans(w, doc);
    case WriteAttribute(key, value) => AttributeMeans(w, doc, key, value);
    case WriteCharacterData(data) =>
      EscapedEncodes(data);
      DataMeans(w, doc, Escape(data), data);
    case WriteCdataSection(data) =>
      SectionEncodes(data);
      DataMeans(w, doc, "<![CDATA[" + SplitSections(data) + "]]>", data);
  }

  /** At any time, the text means what has been asked for, and there are no line
      ends in it which would have to be normalized. */
  lemma {:induction false} RunMeans(calls: seq<Call>)
    requires AreProper(calls)
    ensures Means(Run(calls).0, Run(calls).1)
    ensures Normalized(Run(calls).0.text) == Run(calls).0.text
  {
    hide Means, Apply, IsProper, Recorded, Normalized;
    RunHasNoReturns(calls);
    NothingToNormalize(Run(calls).0.text);
    if calls == [] {
      FreshMeans();
    } else {
      var n := |calls| - 1;
      RunMeans(calls[..n]);
      var (w, doc) := Run(calls[..n]);
      if Apply(w, calls[n]).Some? {
        ApplyMeans(w, doc, calls[n]);
      }
    }
  }

  lemma FreshMeans()
    ensures Means(FRESH, Document([], []))
  {
  }

  /** A complete document which consists of the given items and of white space
      for formatting. */
  ghost predicate IsDocument(text: string, doc: Document) {
    var r := ReadDocument(text);
    && IsComplete(r)
    && Formatted(doc.items, r.events)
  }

  lemma DoneIsDocument(w: State, doc: Document)
    requires Means(w, doc) && IsDone(w) && Normalized(w.text) == w.text
    ensures IsDocument(w.text, doc) && doc.open == []
  {
    hide Read, Normalized;
    NoEventsNoItems(doc.items, Read(START, w.text).events);
  }

  lemma NoEventsNoItems(items: seq<Item>, events: seq<Event>)
    requires Formatted(items, events)
    ensures events == [] ==> items == []
  {
  }

  // What can't be read as it has been written

  ghost predicate ItemsAreReadable(items: seq<Item>) {
    forall i :: 0 <= i < |items| ==> IsReadable(items[i].event)
  }

  /** Whatever is part of a document can be read. */
  lemma {:induction false} FormattedIsReadable(items: seq<Item>, events: seq<Event>)
    requires Formatted(items, events) && AreReadable(events)
    ensures ItemsAreReadable(items)
    decreases |events|
  {
    hide IsReadable;
    if events != [] {
      var k, n := |events| - 1, |items| - 1;
      if items[n].event == events[k] && Formatted(items[..n], events[..k]) {
        FormattedIsReadable(items[..n], events[..k]);
      } else {
        FormattedIsReadable(items, events[..k]);
      }
    }
  }

  /** Attributes are only added to a start tag which has just been begun. */
  ghost predicate EndsWithTag(doc: Document) {
    doc.items != [] && doc.items[|doc.items| - 1].event.Open?
  }

  lemma RecordedIsReadable(doc: Document, call: Call)
    requires call.WriteAttribute? ==> EndsWithTag(doc)
    requires call.EndElement? ==> doc.open != []
    ensures ItemsAreReadable(Recorded(doc, call).items) <==> ItemsAreReadable(doc.items) && IsProper(call)
  {
    hide IsName, IsTextChar, IsValueChar;
    match call
    case StartElement(name, preserve) =>
      SplitReadable(doc.items, Recorded(doc, call).items);
    case EndElement =>
      SplitReadable(doc.items, Recorded(doc, call).items);
    case WriteAttribute(key, value) =>
      AttributeIsReadable(doc, key, value);
    case WriteCharacterData(data) =>
      DataIsReadable(doc.items, data, IsPreserved(doc.open));
    case WriteCdataSection(data) =>
      DataIsReadable(doc.items, data, IsPreserved(doc.open));
  }

  lemma SplitReadable(items: seq<Item>, more: seq<Item>)
    requires |more| == |items| + 1 && more[..|items|] == items
    ensures ItemsAreReadable(more) <==> ItemsAreReadable(items) && IsReadable(more[|items|].event)
  {
    hide IsReadable;
    assert forall i :: 0 <= i < |items| ==> more[i] == items[i];
  }

  lemma AttributeIsReadable(doc: Document, key: string, value: string)
    requires EndsWithTag(doc)
    ensures ItemsAreReadable(Recorded(doc, WriteAttribute(key, value)).items)
       <==> ItemsAreReadable(doc.items) && IsName(key) && IsValue(value)
  {
    hide IsName, IsValue;
    var n := |doc.items| - 1;
    var more := Recorded(doc, WriteAttribute(key, value)).items;
    SplitReadable(doc.items[..n], doc.items);
    SplitReadable(doc.items[..n], more);
    MoreAttributes(doc.items[n].event.attrs, key, value);
  }

  lemma MoreAttributes(attrs: Attributes, key: string, value: string)
    ensures HasReadableAttributes(attrs + [(key, value)])
       <==> HasReadableAttributes(attrs) && IsName(key) && IsValue(value)
  {
    hide IsName, IsValue;
    var more := attrs + [(key, value)];
    assert more[|attrs|] == (key, value);
    assert forall i :: 0 <= i < |attrs| ==> more[i] == attrs[i];
  }

  lemma DataIsReadable(items: seq<Item>, data: string, isPreserved: bool)
    ensures ItemsAreReadable(items + CharacterItems(data, isPreserved)) <==> ItemsAreReadable(items) && IsText(data)
  {
    hide IsTextChar;
    var all := items + CharacterItems(data, isPreserved);
    assert forall i :: 0 <= i < |items| ==> all[i] == items[i];
    assert forall i :: 0 <= i < |data| ==> all[|items| + i] == Item(Character(data[i]), isPreserved);
  }

  /** What is in the document is exactly what has been passed to the calls. */
  lemma {:induction false} RunIsReadable(calls: seq<Call>)
    ensures var (w, doc) := Run(calls); w.phase.StartTag? ==> EndsWithTag(doc)
    ensures var (w, doc) := Run(calls); |w.stack| == |doc.open|
    ensures ItemsAreReadable(Run(calls).1.items) <==> AreProper(calls)
  {
    hide Apply, IsProper, Recorded, ItemsAreReadable, EndsWithTag;
    if calls == [] {
      NoItems();
    } else {
      var n := |calls| - 1;
      RunIsReadable(calls[..n]);
      var (w, doc) := Run(calls[..n]);
      if Apply(w, calls[n]).Some? {
        ApplyRecords(w, doc, calls[n]);
        RecordedIsReadable(doc, calls[n]);
      }
    }
  }

  lemma NoItems()
    ensures ItemsAreReadable([])
  {
  }

  lemma ApplyRecords(w: State, doc: Document, call: Call)
    requires Apply(w, call).Some? && |w.stack| == |doc.open|
    requires w.phase.StartTag? ==> EndsWithTag(doc)
    ensures call.WriteAttribute? ==> EndsWithTag(doc)
    ensures call.EndElement? ==> doc.open != []
    ensures
      var (v, more) := (Apply(w, call).value, Recorded(doc, call));
      |v.stack| == |more.open| && (v.phase.StartTag? ==> EndsWithTag(more))
  {
    hide Escape, SplitSections, ValidName, Layout;
  }

  ghost predicate HasNoReturns(w: State) {
    '\r' !in w.text && forall i :: 0 <= i < |w.stack| ==> '\r' !in w.stack[i]
  }

  lemma {:induction false} RunHasNoReturns(calls: seq<Call>)
    requires AreProper(calls)
    ensures HasNoReturns(Run(calls).0)
  {
    hide Apply, IsProper, Recorded;
    if calls != [] {
      var n := |calls| - 1;
      RunHasNoReturns(calls[..n]);
      var (w, doc) := Run(calls[..n]);
      if Apply(w, calls[n]).Some? {
        ApplyHasNoReturns(w, calls[n]);
      }
    }
  }

  lemma WithHasNoReturns(w: State, s: string)
    requires HasNoReturns(w) && '\r' !in s
    ensures HasNoReturns(With(w, s))
  {
  }

  lemma SumHasNoReturns(a: string, b: string, c: string)
    requires '\r' !in a && '\r' !in b && '\r' !in c
    ensures '\r' !in a + b + c
  {
  }

  lemma PreparedHasNoReturns(w: State)
    requires HasNoReturns(w)
    ensures HasNoReturns(Prepared(w))
  {
    hide HasNoReturns, With;
    WithHasNoReturns(w, DECLARATION + "\n");
    SameText(With(w, DECLARATION + "\n"), Initialized(w));
    var v := Initialized(w);
    WithHasNoReturns(v, ">");
    WithHasNoReturns(v, ">\n");
    SameText(With(v, ">"), TagFinished(v));
    SameText(With(v, ">\n"), TagFinished(v));
  }

  lemma SameText(v: State, w: State)
    ensures v.text == w.text && w.stack == v.stack ==> (HasNoReturns(v) <==> HasNoReturns(w))
  {
  }

  lemma StartHasNoReturns(w: State, name: string, preserve: bool)
    requires HasNoReturns(w) && Started(w, name, preserve).Some?
    ensures HasNoReturns(Started(w, name, preserve).value)
  {
    hide Prepared, Layout;
    var p := Prepared(Rooted(w));
    PreparedHasNoReturns(Rooted(w));
    assert forall c :: c in name ==> IsAccepted(c);
    WithHasNoReturns(p, Layout(p, p.phase.CharacterData?, |p.stack|));
    WithHasNoReturns(With(p, Layout(p, p.phase.CharacterData?, |p.stack|)), "<" + name);
  }

  lemma EndHasNoReturns(w: State)
    requires HasNoReturns(w) && Ended(w).Some?
    ensures HasNoReturns(Ended(w).value)
  {
    hide Layout, HasNoReturns;
    var n := |w.stack| - 1;
    NameHasNoReturns(w);
    WithHasNoReturns(w, "/>");
    var v := With(w, Layout(w, w.phase.CharacterData?, n));
    WithHasNoReturns(w, Layout(w, w.phase.CharacterData?, n));
    WithHasNoReturns(v, "</" + w.stack[n] + ">");
    PoppedHasNoReturns(With(w, "/>"));
    PoppedHasNoReturns(With(v, "</" + w.stack[n] + ">"));
  }

  lemma NameHasNoReturns(w: State)
    requires HasNoReturns(w) && w.stack != []
    ensures '\r' !in "</" + w.stack[|w.stack| - 1] + ">"
  {
    SumHasNoReturns("</", w.stack[|w.stack| - 1], ">");
  }

  lemma PoppedHasNoReturns(w: State)
    requires HasNoReturns(w) && w.stack != []
    ensures HasNoReturns(Popped(w))
  {
  }

  lemma AttributeHasNoReturns(w: State, name: string, value: string)
    requires HasNoReturns(w) && WithAttribute(w, name, value).Some? && IsValue(value)
    ensures HasNoReturns(WithAttribute(w, name, value).value)
  {
    hide Escape, HasNoReturns;
    EscapeHasNoReturns(value);
    assert forall c :: c in name ==> IsAccepted(c);
    SumHasNoReturns(" ", name, "=\"");
    SumHasNoReturns(" " + name + "=\"", Escape(value), "\"");
    var s := " " + name + "=\"" + Escape(value) + "\"";
    WithHasNoReturns(w, s);
    SameText(With(w, s), WithAttribute(w, name, value).value);
  }

  lemma DataHasNoReturns(w: State, s: string)
    requires HasNoReturns(w) && WithData(w, s).Some? && '\r' !in s
    ensures HasNoReturns(WithData(w, s).value)
  {
    hide Prepared, Layout, HasNoReturns;
    var p := Prepared(w);
    PreparedHasNoReturns(w);
    var space := if p.phase.Idle? then Layout(p, false, |p.stack|) else "";
    WithHasNoReturns(p, space);
    WithHasNoReturns(With(p, space), s);
    SameText(With(With(p, space), s), WithData(w, s).value);
  }

  lemma ApplyHasNoReturns(w: State, call: Call)
    requires HasNoReturns(w) && Apply(w, call).Some? && IsProper(call)
    ensures HasNoReturns(Apply(w, call).value)
  {
    hide HasNoReturns, Escape, SplitSections, Started, Ended, WithAttribute, WithData, IsName;
    match call
    case StartElement(name, preserve) => StartHasNoReturns(w, name, preserve);
    case EndElement => EndHasNoReturns(w);
    case WriteAttribute(key, value) => AttributeHasNoReturns(w, key, value);
    case WriteCharacterData(data) =>
      EscapeHasNoReturns(data);
      DataHasNoReturns(w, Escape(data));
    case WriteCdataSection(data) =>
      SectionsHaveNoReturns(data);
      SumHasNoReturns("<![CDATA[", SplitSections(data), "]]>");
      DataHasNoReturns(w, "<![CDATA[" + SplitSections(data) + "]]>");
  }

  /** For all sequences of calls after which the writer is done: what has been
      written is a well-formed document consisting of the elements which have
      been started and ended, with their attributes and data, in this order, if
      and only if all names are names in the sense of the standard, all
      characters are permitted, there is no carriage return in any data, and
      there is neither a carriage return nor a tab in any attribute value. */
  lemma DocumentExactlyIf(calls: seq<Call>)
    requires IsDone(Run(calls).0)
    ensures IsDocument(Run(calls).0.text, Run(calls).1) <==> AreProper(calls)
    ensures AreProper(calls) ==> Run(calls).1.open == []
  {
    hide ReadDocument, Run, Means, Formatted, AreReadable, ItemsAreReadable, Normalized;
    var (w, doc) := Run(calls);
    RunIsReadable(calls);
    DocumentIsReadable(w.text);
    if AreProper(calls) {
      RunMeans(calls);
      DoneIsDocument(w, doc);
    }
    if IsDocument(w.text, doc) {
      FormattedIsReadable(doc.items, ReadDocument(w.text).events);
    }
  }

  /** Such a document is a single tree of elements with unique attribute names
      whose tags and characters, apart from white space, are those which have
      been asked for. */
  lemma DocumentIsTree(calls: seq<Call>)
    requires IsDone(Run(calls).0) && AreProper(calls)
    ensures
      var events := ReadDocument(Run(calls).0.text).events;
      && (exists root :: XmlTree.IsRoot(events, root))
      && XmlTree.HaveUniqueKeys(events)
      && Essential(events) == Essential(EventsOf(Run(calls).1.items))
  {
    hide Read, Run, Normalized, XmlTree.IsRoot, XmlTree.HaveUniqueKeys, Formatted, Essential;
    DocumentExactlyIf(calls);
    XmlTree.CompleteIsTree(Normalized(Run(calls).0.text));
    FormattingKeepsEssential(Run(calls).1.items, ReadDocument(Run(calls).0.text).events);
  }

  /** The writer accepts the name of this element, but nobody can read it. */
  lemma CombiningNameCannotBeRead()
    ensures
      var calls := [StartElement("\U{301}", false), EndElement];
      IsDone(Run(calls).0) && !IsDocument(Run(calls).0.text, Run(calls).1)
  {
    hide Prepared, ValidName, IsName, Layout, IsDocument;
    var first := StartElement("\U{301}", false);
    var calls := [first, EndElement];
    CombiningIsAccepted();
    assert calls[..1] == [first] && [first][..0] == [];
    assert Run([first]).0 == Started(FRESH, "\U{301}", false).value;
    PreparedStack(Rooted(FRESH));
    assert Run([first]).0.stack == ["\U{301}"];
    assert !AreProper([first]);
    assert !AreProper(calls);
    DocumentExactlyIf(calls);
  }

  lemma PreparedStack(w: State)
    ensures Prepared(w).stack == w.stack && Prepared(w).hasRoot == w.hasRoot
  {
  }

  /** A call after which the writer is done although one of the previous calls
      isn't proper. */
  lemma ImproperCallCannotBeRead(calls: seq<Call>, n: nat)
    requires IsDone(Run(calls).0) && n < |calls|
    requires Apply(Run(calls[..n]).0, calls[n]).Some? && !IsProper(calls[n])
    ensures !IsDocument(Run(calls).0.text, Run(calls).1)
  {
    hide IsDocument, Apply, Run, IsProper;
    StaysImproper(calls, n);
    DocumentExactlyIf(calls);
  }

  lemma {:induction false} StaysImproper(calls: seq<Call>, n: nat)
    requires n < |calls|
    requires Apply(Run(calls[..n]).0, calls[n]).Some? && !IsProper(calls[n])
    ensures !AreProper(calls)
    decreases |calls|
  {
    hide Apply, Run, IsProper;
    var k := |calls| - 1;
    if n < k {
      assert calls[..k][..n] == calls[..n];
      StaysImproper(calls[..k], n);
    }
  }

  lemma RunMore(calls: seq<Call>, call: Call)
    ensures
      var (w, doc) := Run(calls);
      var next := Apply(w, call);
      Run(calls + [call]) == if next.None? then (w, doc) else (next.value, Recorded(doc, call))
  {
    hide Apply, Recorded;
    assert (calls + [call])[..|calls|] == calls;
  }

  /** A tab in an attribute value and a carriage return are accepted, but are
      read as a space and a line feed. */
  lemma TabAndReturnCannotBeRead()
    ensures
      var calls := [StartElement("a", true)] + [WriteAttribute("b", "\t")] + [WriteCharacterData("\r")] + [EndElement];
      IsDone(Run(calls).0) && !IsDocument(Run(calls).0.text, Run(calls).1)
  {
    hide *;
    var first := [StartElement("a", true)];
    var second := first + [WriteAttribute("b", "\t")];
    var third := second + [WriteCharacterData("\r")];
    var calls := third + [EndElement];
    TagWithTab();
    RunMore(second, WriteCharacterData("\r"));
    DataIsAccepted(Run(second).0, "\r");
    RunMore(third, EndElement);
    EndIsAccepted(Run(third).0);
    assert calls[..1] == first && calls[1] == WriteAttribute("b", "\t");
    ImproperCallCannotBeRead(calls, 1);
  }

  lemma TagWithTab()
    ensures
      var first := [StartElement("a", true)];
      var call := WriteAttribute("b", "\t");
      && Apply(Run(first).0, call).Some? && !IsProper(call)
      && Run(first + [call]).0.stack == ["a"] && Run(first + [call]).0.hasRoot
  {
    hide Prepared, Layout, Escape, Run, Recorded, ValidName;
    var first := [StartElement("a", true)];
    LettersAreValid();
    NothingRun();
    RunMore([], first[0]);
    assert [] + first == first;
    PreparedStack(Rooted(FRESH));
    FreshIsPrepared();
    RunMore(first, WriteAttribute("b", "\t"));
    assert '\t' in "\t";
  }

  /** A control character is accepted, but the document can't be read at all. */
  lemma ControlCannotBeRead()
    ensures
      var calls := [StartElement("a", true)] + [WriteCharacterData("\U{1}")] + [EndElement];
      IsDone(Run(calls).0) && !IsDocument(Run(calls).0.text, Run(calls).1)
  {
    hide *;
    var first := [StartElement("a", true)];
    var call := WriteCharacterData("\U{1}");
    var second := first + [call];
    var calls := second + [EndElement];
    TagIsOpen();
    RunMore(first, call);
    DataIsAccepted(Run(first).0, "\U{1}");
    RunMore(second, EndElement);
    EndIsAccepted(Run(second).0);
    ControlIsImproper();
    assert calls[..1] == first && calls[1] == call;
    ImproperCallCannotBeRead(calls, 1);
  }

  lemma ControlIsImproper()
    ensures !IsProper(WriteCharacterData("\U{1}"))
  {
    assert '\U{1}' in "\U{1}";
  }

  lemma TagIsOpen()
    ensures
      var first := [StartElement("a", true)];
      Run(first).0.stack == ["a"] && Run(first).0.hasRoot
  {
    hide Prepared, Layout, Run, Recorded, ValidName;
    var first := [StartElement("a", true)];
    LettersAreValid();
    NothingRun();
    RunMore([], first[0]);
    assert [] + first == first;
    PreparedStack(Rooted(FRESH));
  }

  lemma DataIsAccepted(w: State, data: string)
    requires w.stack != []
    ensures
      var next := Apply(w, WriteCharacterData(data));
      next.Some? && next.value.stack == w.stack && next.value.hasRoot == w.hasRoot
  {
    hide Prepared, Layout, Escape;
    PreparedStack(w);
  }

  lemma EndIsAccepted(w: State)
    requires |w.stack| == 1 && w.hasRoot
    ensures Apply(w, EndElement).Some? && IsDone(Apply(w, EndElement).value)
  {
    hide Layout;
  }

  lemma LettersAreValid()
    ensures ValidName("a") && ValidName("b")
  {
  }

  lemma NothingRun()
    ensures Run([]).0 == FRESH
  {
  }
}
