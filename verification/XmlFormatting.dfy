/** What has been asked to be written, and how what is read may differ from it:
    white space is inserted, but not inside of an element which preserves it. */
module XmlFormatting {
  import opened Sequences
  import opened XmlNames
  import opened XmlReader

  /** A part of the document, and whether the white space after it matters. */
  datatype Item = Item(event: Event, isPreserved: bool)

  datatype OpenElement = OpenElement(name: string, isPreserved: bool)

  datatype Document = Document(items: seq<Item>, open: seq<OpenElement>)

  datatype Call =
    | StartElement(name: string, preserve: bool)
    | EndElement
    | WriteAttribute(name: string, value: string)
    | WriteCharacterData(data: string)
    | WriteCdataSection(data: string)

  predicate IsPreserved(open: seq<OpenElement>) {
    open != [] && open[|open| - 1].isPreserved
  }

  function CharacterItems(s: string, isPreserved: bool): (r: seq<Item>)
    ensures |r| == |s|
  {
    seq(|s|, i requires 0 <= i < |s| => Item(Character(s[i]), isPreserved))
  }

  /** What a call adds to the document. */
  function Recorded(doc: Document, call: Call): Document {
    match call
    case StartElement(name, preserve) =>
      var open := doc.open + [OpenElement(name, preserve || IsPreserved(doc.open))];
      Document(doc.items + [Item(Open(name, []), IsPreserved(open))], open)
    case EndElement =>
      if doc.open == [] then doc
      else
        var n := |doc.open| - 1;
        Document(doc.items + [Item(Close(doc.open[n].name), IsPreserved(doc.open[..n]))], doc.open[..n])
    case WriteAttribute(key, value) =>
      var n := |doc.items| - 1;
      if n < 0 || !doc.items[n].event.Open? then doc
      else
        var e := doc.items[n].event;
        doc.(items := doc.items[..n] + [Item(Open(e.name, e.attrs + [(key, value)]), doc.items[n].isPreserved)])
    case WriteCharacterData(data) =>
      doc.(items := doc.items + CharacterItems(data, IsPreserved(doc.open)))
    case WriteCdataSection(data) =>
      doc.(items := doc.items + CharacterItems(data, IsPreserved(doc.open)))
  }

  function EventsOf(items: seq<Item>): (r: seq<Event>)
    ensures |r| == |items|
  {
    seq(|items|, i requires 0 <= i < |items| => items[i].event)
  }

  predicate IsLayout(e: Event) {
    e.Character? && IsSpace(e.c)
  }

  /** The events are the items of the document with white space inserted where
      it doesn't matter. */
  ghost predicate Formatted(items: seq<Item>, events: seq<Event>)
    decreases |events|
  {
    if events == [] then items == []
    else
      var k := |events| - 1;
      var n := |items| - 1;
      && n >= 0
      && (|| (IsLayout(events[k]) && !items[n].isPreserved && Formatted(items, events[..k]))
          || (items[n].event == events[k] && Formatted(items[..n], events[..k])))
  }

  lemma FormattedMore(items: seq<Item>, events: seq<Event>, item: Item)
    requires Formatted(items, events)
    ensures Formatted(items + [item], events + [item.event])
  {
    assert (items + [item])[..|items|] == items;
    assert (events + [item.event])[..|events|] == events;
  }

  lemma {:induction false} FormattedCharacters(items: seq<Item>, events: seq<Event>, s: string, isPreserved: bool)
    requires Formatted(items, events)
    ensures Formatted(items + CharacterItems(s, isPreserved), events + Characters(s))
  {
    hide Formatted;
    if s == "" {
      assert items + CharacterItems(s, isPreserved) == items && events + Characters(s) == events;
    } else {
      var n := |s| - 1;
      FormattedCharacters(items, events, s[..n], isPreserved);
      var last := Item(Character(s[n]), isPreserved);
      FormattedMore(items + CharacterItems(s[..n], isPreserved), events + Characters(s[..n]), last);
      assert CharacterItems(s, isPreserved) == CharacterItems(s[..n], isPreserved) + [last];
      Associative(items, CharacterItems(s[..n], isPreserved), [last]);
      CharactersOfMore(s);
    }
  }

  lemma FormattedLayout(items: seq<Item>, events: seq<Event>, c: char)
    requires Formatted(items, events) && IsSpace(c)
    requires items != [] && !items[|items| - 1].isPreserved
    ensures Formatted(items, events + [Character(c)])
  {
    assert (events + [Character(c)])[..|events|] == events;
  }

  lemma {:induction false} FormattedSpace(items: seq<Item>, events: seq<Event>, s: string)
    requires Formatted(items, events) && forall c :: c in s ==> IsSpace(c)
    requires items != [] && !items[|items| - 1].isPreserved
    ensures Formatted(items, events + Characters(s))
  {
    hide Formatted;
    if s == "" {
      assert events + Characters(s) == events;
    } else {
      var n := |s| - 1;
      assert s[n] in s;
      FormattedSpace(items, events, s[..n]);
      FormattedLayout(items, events + Characters(s[..n]), s[n]);
      CharactersOfMore(s);
    }
  }

  // What stays the same

  /** Tags and all characters but white space. */
  function Essential(events: seq<Event>): seq<Event> {
    if events == [] then []
    else
      var k := |events| - 1;
      Essential(events[..k]) + if IsLayout(events[k]) then [] else [events[k]]
  }

  /** Formatting keeps all tags, with their attributes, and all characters but
      white space, in this order. */
  lemma {:induction false} FormattingKeepsEssential(items: seq<Item>, events: seq<Event>)
    requires Formatted(items, events)
    ensures Essential(events) == Essential(EventsOf(items))
    decreases |events|
  {
    if events != [] {
      var k, n := |events| - 1, |items| - 1;
      if IsLayout(events[k]) && !items[n].isPreserved && Formatted(items, events[..k]) {
        FormattingKeepsEssential(items, events[..k]);
        assert Essential(events[..k]) + [] == Essential(events[..k]);
      } else {
        FormattingKeepsEssential(items[..n], events[..k]);
        assert EventsOf(items)[..n] == EventsOf(items[..n]);
      }
    }
  }

  ghost predicate ArePreserved(items: seq<Item>) {
    forall i :: 0 <= i < |items| ==> items[i].isPreserved
  }

  /** The events from a certain position on are exactly the given ones. */
  ghost predicate OccursAt(events: seq<Event>, k: nat, part: seq<Event>) {
    k + |part| <= |events| && events[k..k + |part|] == part
  }

  /** Between two items which preserve white space, nothing is inserted. */
  lemma {:induction false} PreservedAtEnd(items: seq<Item>, part: seq<Item>, events: seq<Event>)
    requires Formatted(items + part, events)
    requires items != [] && items[|items| - 1].isPreserved && ArePreserved(part)
    ensures |part| <= |events| && Formatted(items, events[..|events| - |part|])
    ensures OccursAt(events, |events| - |part|, EventsOf(part))
    decreases |part|
  {
    if part == [] {
      assert items + part == items && events[..|events|] == events;
    } else {
      var n := |part| - 1;
      var k := |events| - 1;
      assert (items + part)[..|items| + n] == items + part[..n];
      assert (items + part)[|items| + n] == part[n];
      PreservedAtEnd(items, part[..n], events[..k]);
      assert events[..k][..k - n] == events[..|events| - |part|];
      assert EventsOf(part) == EventsOf(part[..n]) + [part[n].event];
      assert events[k - n..][..n] == events[..k][k - n..];
    }
  }

  /** The content of an element which preserves white space is exactly what has
      been written, wherever the element is in the document. */
  lemma {:induction false} PreservedContent(items: seq<Item>, part: seq<Item>, rest: seq<Item>, events: seq<Event>)
      returns (k: nat)
    requires Formatted(items + part + rest, events)
    requires items != [] && items[|items| - 1].isPreserved && ArePreserved(part)
    ensures OccursAt(events, k, EventsOf(part)) && Formatted(items, events[..k])
    ensures rest == [] ==> k + |part| == |events|
    ensures rest != [] ==> k + |part| < |events| && events[k + |part|] == rest[0].event
    decreases |events|
  {
    if rest == [] {
      assert items + part + rest == items + part;
      PreservedAtEnd(items, part, events);
      k := |events| - |part|;
    } else {
      var all := items + part + rest;
      var n, m := |all| - 1, |events| - 1;
      if all[n].event == events[m] && Formatted(all[..n], events[..m]) {
        assert all[..n] == items + part + rest[..|rest| - 1];
        k := PreservedContent(items, part, rest[..|rest| - 1], events[..m]);
      } else {
        k := PreservedContent(items, part, rest, events[..m]);
      }
      assert events[..m][..k] == events[..k];
      assert events[..m][k..k + |part|] == events[k..k + |part|];
    }
  }
}
