/** Elements in which white space is preserved contain exactly the data which
    have been passed to the writer between starting and ending them. */
module XmlPreserved {
  import opened Sequences
  import opened XmlNames
  import opened XmlReader
  import opened XmlEscape
  import opened XmlFormatting
  import opened XmlWriter
  import opened XmlMeaning

  /** The characters among some events. */
  function DataIn(events: seq<Event>): string {
    if events == [] then ""
    else
      var k := |events| - 1;
      DataIn(events[..k]) + if events[k].Character? then [events[k].c] else ""
  }

  function DataOfCall(call: Call): string {
    match call
    case WriteCharacterData(data) => data
    case WriteCdataSection(data) => data
    case _ => ""
  }

  /** The data passed in some calls. */
  function DataOf(calls: seq<Call>): string {
    if calls == [] then ""
    else DataOf(calls[..|calls| - 1]) + DataOfCall(calls[|calls| - 1])
  }

  lemma DataInMore(events: seq<Event>, e: Event)
    ensures DataIn(events + [e]) == DataIn(events) + if e.Character? then [e.c] else ""
  {
    assert (events + [e])[..|events|] == events;
  }

  lemma {:induction false} DataInCharacters(events: seq<Event>, s: string)
    ensures DataIn(events + Characters(s)) == DataIn(events) + s
  {
    hide DataIn;
    if s == "" {
      assert events + Characters(s) == events && DataIn(events) + s == DataIn(events);
    } else {
      var n := |s| - 1;
      DataInCharacters(events, s[..n]);
      CharactersOfMore(s);
      DataInMore(events + Characters(s[..n]), Character(s[n]));
      Associative(DataIn(events), s[..n], [s[n]]);
      assert s == s[..n] + [s[n]];
    }
  }

  // Inside of an element

  /** What follows the start tag of an element which preserves white space, while
      this hasn't been ended. */
  ghost predicate IsInside(doc: Document, items: seq<Item>, name: string, attrs: Attributes, part: seq<Item>, depth: nat) {
    && doc.items == items + [Item(Open(name, attrs), true)] + part && ArePreserved(part)
    && OpenPreserved(doc.open, name, depth)
  }

  /** The element at some depth is open and preserves white space. */
  ghost predicate OpenPreserved(open: seq<OpenElement>, name: string, depth: nat) {
    |open| > depth && open[depth].name == name && forall i :: depth <= i < |open| ==> open[i].isPreserved
  }

  lemma OneMoreItem(doc: Document, more: Document, items: seq<Item>, name: string, attrs: Attributes, part: seq<Item>,
                    depth: nat, item: Item) returns (r: seq<Item>)
    requires IsInside(doc, items, name, attrs, part, depth) && item.isPreserved && !item.event.Character?
    requires more.items == doc.items + [item]
    requires OpenPreserved(more.open, name, depth)
    ensures IsInside(more, items, name, attrs, r, depth) && DataIn(EventsOf(r)) == DataIn(EventsOf(part))
  {
    hide DataIn;
    r := part + [item];
    Associative(items + [Item(Open(name, attrs), true)], part, [item]);
    assert EventsOf(r) == EventsOf(part) + [item.event];
    DataInMore(EventsOf(part), item.event);
    assert DataIn(EventsOf(part)) + "" == DataIn(EventsOf(part));
  }

  lemma AttributeInside(doc: Document, items: seq<Item>, name: string, attrs: Attributes, part: seq<Item>, depth: nat,
                        key: string, value: string) returns (newAttrs: Attributes, r: seq<Item>)
    requires IsInside(doc, items, name, attrs, part, depth) && EndsWithTag(doc)
    ensures IsInside(Recorded(doc, WriteAttribute(key, value)), items, name, newAttrs, r, depth)
    ensures DataIn(EventsOf(r)) == DataIn(EventsOf(part))
  {
    hide DataIn;
    var n := |doc.items| - 1;
    var e := doc.items[n].event;
    var last := Item(Open(e.name, e.attrs + [(key, value)]), doc.items[n].isPreserved);
    var start := items + [Item(Open(name, attrs), true)];
    if part == [] {
      newAttrs, r := attrs + [(key, value)], part;
      assert start + part == start;
      assert doc.items[..n] == items;
      assert items + [Item(Open(name, newAttrs), true)] + r == items + [last];
    } else {
      var k := |part| - 1;
      newAttrs, r := attrs, part[..k] + [last];
      assert doc.items[n] == part[k] && doc.items[..n] == start + part[..k];
      Associative(start, part[..k], [last]);
      SameData(EventsOf(part), EventsOf(r), k);
    }
  }

  lemma SameData(a: seq<Event>, b: seq<Event>, k: nat)
    requires |a| == |b| == k + 1 && a[..k] == b[..k] && !a[k].Character? && !b[k].Character?
    ensures DataIn(a) == DataIn(b)
  {
  }

  lemma DataInside(doc: Document, call: Call, items: seq<Item>, name: string, attrs: Attributes, part: seq<Item>,
                   depth: nat) returns (r: seq<Item>)
    requires call.WriteCharacterData? || call.WriteCdataSection?
    requires IsInside(doc, items, name, attrs, part, depth)
    ensures IsInside(Recorded(doc, call), items, name, attrs, r, depth)
    ensures DataIn(EventsOf(r)) == DataIn(EventsOf(part)) + DataOfCall(call)
  {
    hide DataIn;
    var data := DataOfCall(call);
    var more := CharacterItems(data, true);
    r := part + more;
    assert IsPreserved(doc.open);
    Associative(items + [Item(Open(name, attrs), true)], part, more);
    assert EventsOf(r) == EventsOf(part) + Characters(data);
    DataInCharacters(EventsOf(part), data);
  }

  /** An accepted call which doesn't end the element adds its data to what is
      inside, and nothing else but tags. */
  lemma CallInside(doc: Document, call: Call, items: seq<Item>, name: string, attrs: Attributes, part: seq<Item>,
                   depth: nat) returns (newAttrs: Attributes, r: seq<Item>)
    requires IsInside(doc, items, name, attrs, part, depth)
    requires call.WriteAttribute? ==> EndsWithTag(doc)
    requires |Recorded(doc, call).open| > depth
    ensures IsInside(Recorded(doc, call), items, name, newAttrs, r, depth)
    ensures DataIn(EventsOf(r)) == DataIn(EventsOf(part)) + DataOfCall(call)
  {
    hide DataIn, EndsWithTag;
    newAttrs := attrs;
    var more := Recorded(doc, call);
    assert DataIn(EventsOf(part)) + "" == DataIn(EventsOf(part));
    match call
    case StartElement(inner, preserve) =>
      r := OneMoreItem(doc, more, items, name, attrs, part, depth, more.items[|doc.items|]);
    case EndElement =>
      r := OneMoreItem(doc, more, items, name, attrs, part, depth, more.items[|doc.items|]);
    case WriteAttribute(key, value) =>
      newAttrs, r := AttributeInside(doc, items, name, attrs, part, depth, key, value);
    case _ =>
      r := DataInside(doc, call, items, name, attrs, part, depth);
  }

  /** Whether an element which has been started as the one at a certain depth
      isn't ended by some calls. */
  ghost predicate StaysOpen(first: seq<Call>, calls: seq<Call>, depth: nat) {
    forall m :: 0 <= m <= |calls| ==> |Run(first + calls[..m]).0.stack| > depth
  }

  lemma {:induction false} CallsInside(first: seq<Call>, calls: seq<Call>, items: seq<Item>, name: string, depth: nat)
      returns (attrs: Attributes, part: seq<Item>)
    requires IsInside(Run(first).1, items, name, [], [], depth) && StaysOpen(first, calls, depth)
    ensures IsInside(Run(first + calls).1, items, name, attrs, part, depth)
    ensures DataIn(EventsOf(part)) == DataOf(calls)
    decreases |calls|
  {
    hide Run, IsInside, DataIn, Apply, Recorded;
    if calls == [] {
      assert first + calls == first;
      attrs, part := [], [];
      NoData();
    } else {
      var n := |calls| - 1;
      var before := first + calls[..n];
      ShorterStaysOpen(first, calls, depth);
      attrs, part := CallsInside(first, calls[..n], items, name, depth);
      Associative(first, calls[..n], [calls[n]]);
      assert calls == calls[..n] + [calls[n]];
      RunMore(before, calls[n]);
      RunIsReadable(before);
      RunIsReadable(before + [calls[n]]);
      assert calls[..n + 1] == calls;
      var (w, doc) := Run(before);
      assert |w.stack| > depth;
      if Apply(w, calls[n]).Some? {
        ApplyRecords(w, doc, calls[n]);
        attrs, part := CallInside(doc, calls[n], items, name, attrs, part, depth);
      } else {
        RefusedHasNoData(w, calls[n]);
        assert DataOf(calls[..n]) + "" == DataOf(calls[..n]);
      }
    }
  }

  lemma NoData()
    ensures DataIn(EventsOf([])) == ""
  {
  }

  lemma ShorterStaysOpen(first: seq<Call>, calls: seq<Call>, depth: nat)
    requires StaysOpen(first, calls, depth) && calls != []
    ensures StaysOpen(first, calls[..|calls| - 1], depth)
  {
    hide Run;
    var shorter := calls[..|calls| - 1];
    forall m | 0 <= m <= |shorter|
      ensures |Run(first + shorter[..m]).0.stack| > depth
    {
      assert shorter[..m] == calls[..m];
    }
  }

  /** Inside of an element, data is always accepted. */
  lemma RefusedHasNoData(w: State, call: Call)
    requires w.stack != [] && Apply(w, call).None?
    ensures DataOfCall(call) == ""
  {
    hide Escape, SplitSections, Prepared, Layout, ValidName;
  }

  // After the element

  /** What has been recorded up to an end tag doesn't change any more. */
  ghost predicate HasItems(doc: Document, items: seq<Item>) {
    && |items| <= |doc.items| && doc.items[..|items|] == items
    && items != [] && !items[|items| - 1].event.Open?
  }

  lemma RecordedHasItems(doc: Document, call: Call, items: seq<Item>)
    requires HasItems(doc, items)
    ensures HasItems(Recorded(doc, call), items)
  {
  }

  lemma {:induction false} RunHasItems(first: seq<Call>, calls: seq<Call>, items: seq<Item>)
    requires HasItems(Run(first).1, items)
    ensures HasItems(Run(first + calls).1, items)
    decreases |calls|
  {
    hide Run, HasItems, Apply, Recorded;
    if calls == [] {
      assert first + calls == first;
    } else {
      var n := |calls| - 1;
      var before := first + calls[..n];
      RunHasItems(first, calls[..n], items);
      Associative(first, calls[..n], [calls[n]]);
      assert calls == calls[..n] + [calls[n]];
      RunMore(before, calls[n]);
      RecordedHasItems(Run(before).1, calls[n], items);
    }
  }

  // Together

  lemma ElementStarts(before: seq<Call>, name: string)
    requires Apply(Run(before).0, StartElement(name, true)).Some?
    ensures
      var (doc, more) := (Run(before).1, Run(before + [StartElement(name, true)]).1);
      IsInside(more, doc.items, name, [], [], |doc.open|) && |doc.open| == |Run(before).0.stack|
  {
    hide Apply, Run;
    RunMore(before, StartElement(name, true));
    RunIsReadable(before);
    var doc := Run(before).1;
    var start := [Item(Open(name, []), true)];
    assert doc.items + start + [] == doc.items + start;
  }

  lemma ElementEnds(inside: seq<Call>, items: seq<Item>, name: string, attrs: Attributes, part: seq<Item>, depth: nat)
    requires IsInside(Run(inside).1, items, name, attrs, part, depth)
    requires |Run(inside).1.open| == depth + 1
    ensures
      var doc := Run(inside + [EndElement]).1;
      exists last: Item :: last.event == Close(name) && HasItems(doc, items + [Item(Open(name, attrs), true)] + part + [last])
  {
    hide Run, Apply;
    RunMore(inside, EndElement);
    RunIsReadable(inside);
    var (w, doc) := Run(inside);
    EndIsPermitted(w);
    var more := Recorded(doc, EndElement);
    var last := more.items[|doc.items|];
    assert more.items == doc.items + [last];
    assert HasItems(more, doc.items + [last]);
  }

  lemma EndIsPermitted(w: State)
    requires w.stack != []
    ensures Apply(w, EndElement).Some?
  {
    hide Layout;
  }

  /** In a complete document, an element for which white space is preserved is
      read with exactly the data which have been passed to the writer between
      its start and its end, and nothing but these and tags. */
  lemma PreservedElement(before: seq<Call>, name: string, inside: seq<Call>, after: seq<Call>)
      returns (k: nat, attrs: Attributes, content: seq<Event>)
    requires Apply(Run(before).0, StartElement(name, true)).Some?
    requires
      var first := before + [StartElement(name, true)];
      var depth := |Run(before).0.stack|;
      && StaysOpen(first, inside, depth) && |Run(first + inside).0.stack| == depth + 1
      && IsDone(Run(first + inside + [EndElement] + after).0)
      && AreProper(first + inside + [EndElement] + after)
    ensures
      var calls := before + [StartElement(name, true)] + inside + [EndElement] + after;
      && OccursAt(ReadDocument(Run(calls).0.text).events, k, [Open(name, attrs)] + content + [Close(name)])
      && DataIn(content) == DataOf(inside)
  {
    hide Run, Apply, StaysOpen, AreProper, ReadDocument, DataOf, DataIn, IsComplete;
    var first := before + [StartElement(name, true)];
    var depth := |Run(before).0.stack|;
    var items := Run(before).1.items;
    var part: seq<Item>;
    ElementStarts(before, name);
    attrs, part := CallsInside(first, inside, items, name, depth);
    content := EventsOf(part);
    RunIsReadable(first + inside);
    ElementEnds(first + inside, items, name, attrs, part, depth);
    var start := items + [Item(Open(name, attrs), true)];
    var last: Item :| last.event == Close(name) && HasItems(Run(first + inside + [EndElement]).1, start + part + [last]);
    var calls := first + inside + [EndElement] + after;
    RunHasItems(first + inside + [EndElement], after, start + part + [last]);
    DocumentExactlyIf(calls);
    var rest := Run(calls).1.items[|start + part|..];
    k := ContentIsRead(start, part, rest, Run(calls).1.items, ReadDocument(Run(calls).0.text).events, name, attrs);
  }

  lemma ContentIsRead(start: seq<Item>, part: seq<Item>, rest: seq<Item>, items: seq<Item>, events: seq<Event>,
                      name: string, attrs: Attributes) returns (k: nat)
    requires Formatted(items, events) && ArePreserved(part)
    requires start != [] && start[|start| - 1] == Item(Open(name, attrs), true)
    requires |start + part| < |items| && items[..|start + part|] == start + part && items[|start + part|..] == rest
    requires items[|start + part|].event == Close(name)
    ensures OccursAt(events, k, [Open(name, attrs)] + EventsOf(part) + [Close(name)])
  {
    hide Formatted;
    assert items == start + part + rest;
    var j := PreservedContent(start, part, rest, events);
    LastIsRead(start, events[..j]);
    k := j - 1;
    assert events[k] == events[..j][k] == Open(name, attrs);
    var all := [Open(name, attrs)] + EventsOf(part) + [Close(name)];
    assert events[k..k + |all|] == [events[k]] + events[j..j + |part|] + [events[j + |part|]];
  }

  lemma LastIsRead(items: seq<Item>, events: seq<Event>)
    requires Formatted(items, events) && items != [] && items[|items| - 1].isPreserved
    ensures events != [] && events[|events| - 1] == items[|items| - 1].event
  {
  }
}
