/** A document which has been read is a single tree of elements. */
module XmlTree {
  import opened Sequences
  import opened XmlNames
  import opened XmlReader

  datatype Node =
    | Text(c: char)
    | Element(name: string, attrs: Attributes, children: seq<Node>)

  /** An element which hasn't been closed. */
  datatype Frame = Frame(name: string, attrs: Attributes, children: seq<Node>)

  function Events(node: Node): seq<Event>
    decreases node
  {
    match node
    case Text(c) => [Character(c)]
    case Element(name, attrs, children) => [Open(name, attrs)] + EventsOfAll(children) + [Close(name)]
  }

  function EventsOfAll(nodes: seq<Node>): seq<Event>
    decreases nodes
  {
    if nodes == [] then [] else EventsOfAll(nodes[..|nodes| - 1]) + Events(nodes[|nodes| - 1])
  }

  function EventsOfOpen(frames: seq<Frame>): seq<Event> {
    if frames == [] then []
    else
      var f := frames[|frames| - 1];
      EventsOfOpen(frames[..|frames| - 1]) + ([Open(f.name, f.attrs)] + EventsOfAll(f.children))
  }

  function Names(frames: seq<Frame>): seq<string> {
    seq(|frames|, i requires 0 <= i < |frames| => frames[i].name)
  }

  ghost predicate NoRepeats(names: seq<string>) {
    forall i, j :: 0 <= i < j < |names| ==> names[i] != names[j]
  }

  /** No two attributes of an element have the same name. */
  ghost predicate HaveUniqueKeys(events: seq<Event>) {
    forall i :: 0 <= i < |events| && events[i].Open? ==> NoRepeats(Keys(events[i].attrs))
  }

  ghost predicate AreOpen(events: seq<Event>, frames: seq<Frame>) {
    frames != [] && events == EventsOfOpen(frames)
  }

  ghost predicate IsRoot(events: seq<Event>, root: Node) {
    root.Element? && events == Events(root)
  }

  /** The events belong to one tree, as far as it has been read. */
  ghost predicate BelongToTree(events: seq<Event>, open: seq<string>) {
    if open == [] then events == [] || exists root :: IsRoot(events, root)
    else exists frames :: AreOpen(events, frames) && Names(frames) == open
  }

  /** What the attributes read so far satisfy, and where characters are read
      only inside of the root element. */
  ghost predicate ModeIsSound(r: Reader) {
    match r.mode
    case Reference(_) => r.open != []
    case Markup(_) => r.open != []
    case Cdata(_) => r.open != []
    case Inside(_, attrs) => NoRepeats(Keys(attrs))
    case Key(_, attrs, _) => NoRepeats(Keys(attrs))
    case Equals(_, attrs, key) => NoRepeats(Keys(attrs)) && key !in Keys(attrs)
    case Quoted(_, attrs, key, _) => NoRepeats(Keys(attrs)) && key !in Keys(attrs)
    case QuotedReference(_, attrs, key, _, _) => NoRepeats(Keys(attrs)) && key !in Keys(attrs)
    case Empty(_, attrs) => NoRepeats(Keys(attrs))
    case _ => true
  }

  ghost predicate IsSound(r: Reader) {
    ModeIsSound(r) && HaveUniqueKeys(r.events) && (r.mode.Failed? || BelongToTree(r.events, r.open))
  }

  // Growing the tree

  lemma TextBelongs(events: seq<Event>, open: seq<string>, c: char)
    requires open != [] && BelongToTree(events, open)
    ensures BelongToTree(events + [Character(c)], open)
  {
    var frames: seq<Frame> :| AreOpen(events, frames) && Names(frames) == open;
    var n := |frames| - 1;
    var f := frames[n];
    var g := f.(children := f.children + [Text(c)]);
    AddChild(frames, Text(c));
    assert Names(frames[..n] + [g]) == Names(frames);
    assert AreOpen(events + [Character(c)], frames[..n] + [g]);
  }

  lemma AddChild(frames: seq<Frame>, node: Node)
    requires frames != []
    ensures
      var n := |frames| - 1;
      var f := frames[n];
      EventsOfOpen(frames[..n] + [f.(children := f.children + [node])]) == EventsOfOpen(frames) + Events(node)
  {
    var n := |frames| - 1;
    var f := frames[n];
    var g := f.(children := f.children + [node]);
    assert g.children[..|g.children| - 1] == f.children;
    var more := frames[..n] + [g];
    assert more[..n] == frames[..n];
    Associative([Open(f.name, f.attrs)], EventsOfAll(f.children), Events(node));
    Associative(EventsOfOpen(frames[..n]), [Open(f.name, f.attrs)] + EventsOfAll(f.children), Events(node));
  }

  lemma OpenBelongs(events: seq<Event>, open: seq<string>, name: string, attrs: Attributes)
    requires BelongToTree(events, open) && (open == [] ==> events == [])
    ensures BelongToTree(events + [Open(name, attrs)], open + [name])
  {
    var f := Frame(name, attrs, []);
    var frames: seq<Frame> := [];
    if open != [] {
      frames :| AreOpen(events, frames) && Names(frames) == open;
    }
    assert (frames + [f])[..|frames|] == frames;
    assert [Open(name, attrs)] + EventsOfAll([]) == [Open(name, attrs)];
    assert AreOpen(events + [Open(name, attrs)], frames + [f]);
    assert Names(frames + [f]) == open + [name];
  }

  lemma CloseBelongs(events: seq<Event>, open: seq<string>)
    requires open != [] && BelongToTree(events, open)
    ensures BelongToTree(events + [Close(open[|open| - 1])], open[..|open| - 1])
  {
    var frames: seq<Frame> :| AreOpen(events, frames) && Names(frames) == open;
    var n := |frames| - 1;
    var f := frames[n];
    var node := Element(f.name, f.attrs, f.children);
    Associative(EventsOfOpen(frames[..n]), [Open(f.name, f.attrs)] + EventsOfAll(f.children), [Close(f.name)]);
    assert events + [Close(f.name)] == EventsOfOpen(frames[..n]) + Events(node);
    if n == 0 {
      assert IsRoot(events + [Close(f.name)], node);
    } else {
      AddChild(frames[..n], node);
      var p := frames[n - 1];
      var rest := frames[..n][..n - 1] + [p.(children := p.children + [node])];
      assert Names(rest) == open[..n];
      assert AreOpen(events + [Close(f.name)], rest);
    }
  }

  // Every step keeps this

  lemma CharacterIsSound(r: Reader, c: char, mode: Mode)
    requires r.open != [] && BelongToTree(r.events, r.open) && HaveUniqueKeys(r.events)
    requires mode.Content? || mode.Cdata?
    ensures IsSound(Reader(r.events + [Character(c)], r.open, mode))
  {
    hide BelongToTree;
    TextBelongs(r.events, r.open, c);
  }

  lemma {:induction false} CharactersAreSound(r: Reader, s: string, mode: Mode)
    requires r.open != [] && BelongToTree(r.events, r.open) && HaveUniqueKeys(r.events)
    requires mode.Content? || mode.Cdata?
    ensures IsSound(Reader(r.events + Characters(s), r.open, mode))
  {
    hide BelongToTree;
    if s == "" {
      assert r.events + Characters(s) == r.events;
    } else {
      var n := |s| - 1;
      CharactersAreSound(r, s[..n], mode);
      CharacterIsSound(Reader(r.events + Characters(s[..n]), r.open, mode), s[n], mode);
      CharactersOfMore(s);
    }
  }

  lemma OpenedIsSound(r: Reader, name: string, attrs: Attributes)
    requires BelongToTree(r.events, r.open) && HaveUniqueKeys(r.events) && NoRepeats(Keys(attrs))
    ensures IsSound(Opened(r, name, attrs))
    ensures !Opened(r, name, attrs).mode.Failed? ==> Opened(r, name, attrs).open == r.open + [name]
  {
    hide BelongToTree, NoRepeats;
    if !(r.open == [] && r.events != []) {
      OpenBelongs(r.events, r.open, name, attrs);
    }
  }

  lemma ClosedIsSound(r: Reader, name: string)
    requires BelongToTree(r.events, r.open) && HaveUniqueKeys(r.events)
    ensures IsSound(Closed(r, name))
  {
    hide BelongToTree, NoRepeats;
    if r.open != [] && r.open[|r.open| - 1] == name {
      CloseBelongs(r.events, r.open);
    }
  }

  lemma KeysOfMore(attrs: Attributes, key: string, value: string)
    requires NoRepeats(Keys(attrs)) && key !in Keys(attrs)
    ensures NoRepeats(Keys(attrs + [(key, value)]))
  {
    assert Keys(attrs + [(key, value)]) == Keys(attrs) + [key];
  }

  lemma InsideIsSound(r: Reader, name: string, attrs: Attributes, c: char)
    requires BelongToTree(r.events, r.open) && HaveUniqueKeys(r.events) && NoRepeats(Keys(attrs))
    ensures IsSound(StepInside(r, name, attrs, c))
  {
    hide BelongToTree, HaveUniqueKeys, NoRepeats, Opened;
    if c == '>' {
      OpenedIsSound(r, name, attrs);
    }
  }

  lemma CdataIsSound(r: Reader, n: nat, c: char)
    requires r.open != [] && BelongToTree(r.events, r.open) && HaveUniqueKeys(r.events)
    requires r.mode.Cdata?
    ensures IsSound(StepCdata(r, n, c))
  {
    hide BelongToTree, HaveUniqueKeys;
    if c == ']' {
      CharacterIsSound(r, ']', r.mode);
    } else if !(c == '>' && n == 2) {
      CharactersAreSound(r, Brackets(n), Cdata(0));
      CharacterIsSound(Reader(r.events + Characters(Brackets(n)), r.open, Cdata(0)), c, Cdata(0));
    }
  }

  lemma StepIsSound(r: Reader, c: char)
    requires IsSound(r)
    ensures IsSound(Step(r, c))
  {
    hide BelongToTree, HaveUniqueKeys, NoRepeats, StepInside, StepCdata, Opened, Closed, IsNameStart, IsNameChar, EntityValue;
    if r.mode.Failed? {
      return;
    }
    match r.mode
    case Content =>
      if r.open != [] {
        CharacterIsSound(r, c, Content);
      }
    case Reference(entity) =>
      if EntityValue(entity).Some? {
        CharacterIsSound(r, EntityValue(entity).value, Content);
      }
    case Name(name) =>
      NoKeys();
      InsideIsSound(r, name, [], c);
    case Inside(name, attrs) =>
      InsideIsSound(r, name, attrs, c);
    case Quoted(name, attrs, key, value) =>
      KeysOfMore(attrs, key, value);
    case Empty(name, attrs) =>
      OpenedIsSound(r, name, attrs);
      if !Opened(r, name, attrs).mode.Failed? {
        ClosedIsSound(Opened(r, name, attrs), name);
      }
    case EndTag(name) =>
      ClosedIsSound(r, name);
    case Cdata(n) =>
      CdataIsSound(r, n, c);
    case _ =>
  }

  lemma NoKeys()
    ensures NoRepeats(Keys([]))
  {
  }

  lemma {:induction false} ReadIsSound(s: string)
    ensures IsSound(Read(START, s))
  {
    hide IsSound, Step;
    if s == "" {
      StartIsSound();
    } else {
      ReadIsSound(s[..|s| - 1]);
      StepIsSound(Read(START, s[..|s| - 1]), s[|s| - 1]);
    }
  }

  lemma StartIsSound()
    ensures IsSound(START)
  {
  }

  /** Every document which is read completely consists of one tree of
      elements, none of which has two attributes of the same name. */
  lemma CompleteIsTree(s: string)
    requires IsComplete(Read(START, s))
    ensures exists root :: IsRoot(Read(START, s).events, root)
    ensures HaveUniqueKeys(Read(START, s).events)
  {
    hide Read, IsRoot;
    ReadIsSound(s);
  }
}
