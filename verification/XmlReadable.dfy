/** What a reader can report at all: names and characters which the standard
    permits, no carriage returns, and no tabs in attribute values. */
module XmlReadable {
  import opened Wrappers
  import opened XmlNames
  import opened XmlReader

  ghost predicate HasReadableAttributes(attrs: Attributes) {
    forall i :: 0 <= i < |attrs| ==> IsName(attrs[i].0) && IsValue(attrs[i].1)
  }

  ghost predicate IsReadable(e: Event) {
    match e
    case Open(name, attrs) => IsName(name) && HasReadableAttributes(attrs)
    case Close(_) => true
    case Character(c) => IsTextChar(c)
  }

  ghost predicate AreReadable(events: seq<Event>) {
    forall i :: 0 <= i < |events| ==> IsReadable(events[i])
  }

  /** The same for the tag which is being read. */
  ghost predicate ModeIsReadable(mode: Mode) {
    match mode
    case Name(name) => IsName(name)
    case Inside(name, attrs) => IsName(name) && HasReadableAttributes(attrs)
    case Key(name, attrs, key) => IsName(name) && HasReadableAttributes(attrs) && (key == "" || IsName(key))
    case Equals(name, attrs, key) => IsName(name) && HasReadableAttributes(attrs) && IsName(key)
    case Quoted(name, attrs, key, value) =>
      IsName(name) && HasReadableAttributes(attrs) && IsName(key) && IsValue(value)
    case QuotedReference(name, attrs, key, value, _) =>
      IsName(name) && HasReadableAttributes(attrs) && IsName(key) && IsValue(value)
    case Empty(name, attrs) => IsName(name) && HasReadableAttributes(attrs)
    case _ => true
  }

  ghost predicate HasReadable(r: Reader) {
    ModeIsReadable(r.mode) && AreReadable(r.events)
  }

  lemma MoreIsReadable(events: seq<Event>, e: Event)
    requires AreReadable(events) && IsReadable(e)
    ensures AreReadable(events + [e])
  {
  }

  lemma EntityIsReadable(entity: string)
    ensures EntityValue(entity).Some? ==> IsTextChar(EntityValue(entity).value) && IsValueChar(EntityValue(entity).value)
  {
  }

  lemma NameWithMore(name: string, c: char)
    requires (name == "" && IsNameStart(c)) || (IsName(name) && IsNameChar(c))
    ensures IsName(name + [c])
  {
  }

  lemma ValueWithMore(value: string, c: char)
    requires IsValue(value) && IsValueChar(c)
    ensures IsValue(value + [c])
  {
  }

  lemma OpenedIsReadable(r: Reader, name: string, attrs: Attributes)
    requires AreReadable(r.events) && IsName(name) && HasReadableAttributes(attrs)
    ensures HasReadable(Opened(r, name, attrs))
  {
    hide IsName, HasReadableAttributes, AreReadable;
    MoreIsReadable(r.events, Open(name, attrs));
  }

  lemma ClosedIsReadable(r: Reader, name: string)
    requires AreReadable(r.events)
    ensures HasReadable(Closed(r, name))
  {
    hide AreReadable;
    MoreIsReadable(r.events, Close(name));
  }

  lemma InsideIsReadable(r: Reader, name: string, attrs: Attributes, c: char)
    requires AreReadable(r.events) && IsName(name) && HasReadableAttributes(attrs)
    ensures HasReadable(StepInside(r, name, attrs, c))
  {
    hide IsName, HasReadableAttributes, AreReadable, Opened;
    if c == '>' {
      OpenedIsReadable(r, name, attrs);
    }
  }

  lemma {:induction false} BracketsAreReadable(events: seq<Event>, n: nat)
    requires AreReadable(events)
    ensures AreReadable(events + Characters(Brackets(n)))
  {
    forall i | 0 <= i < n ensures IsReadable(Characters(Brackets(n))[i]) {
      assert Characters(Brackets(n))[i] == Character(']');
    }
  }

  lemma CdataIsReadable(r: Reader, n: nat, c: char)
    requires AreReadable(r.events) && r.mode.Cdata? && c != '\r'
    ensures HasReadable(StepCdata(r, n, c))
  {
    hide AreReadable, Characters, Brackets;
    MoreIsReadable(r.events, Character(']'));
    if IsChar(c) {
      BracketsAreReadable(r.events, n);
      MoreIsReadable(r.events + Characters(Brackets(n)), Character(c));
    }
  }

  lemma StepIsReadable(r: Reader, c: char)
    requires HasReadable(r) && c != '\r'
    ensures HasReadable(Step(r, c))
  {
    hide AreReadable, HasReadableAttributes, IsName, IsNameStart, IsNameChar, IsValue, EntityValue, StepInside, StepCdata,
         Opened, Closed;
    match r.mode
    case Content =>
      if IsChar(c) {
        MoreIsReadable(r.events, Character(c));
      }
    case Reference(entity) =>
      EntityIsReadable(entity);
      if EntityValue(entity).Some? {
        MoreIsReadable(r.events, Character(EntityValue(entity).value));
      }
    case Tag =>
      if IsNameStart(c) {
        NameWithMore("", c);
        assert "" + [c] == [c];
      }
    case Name(name) =>
      if IsNameChar(c) {
        NameWithMore(name, c);
      } else {
        NoAttributes();
        InsideIsReadable(r, name, [], c);
      }
    case Inside(name, attrs) =>
      InsideIsReadable(r, name, attrs, c);
    case Key(name, attrs, key) =>
      KeyIsReadable(r, name, attrs, key, c);
    case Equals(name, attrs, key) =>
      assert IsValue("") by {
        NoAttributes();
      }
    case Quoted(name, attrs, key, value) =>
      QuotedIsReadable(r, name, attrs, key, value, c);
    case QuotedReference(name, attrs, key, value, entity) =>
      EntityIsReadable(entity);
      if EntityValue(entity).Some? {
        ValueWithMore(value, EntityValue(entity).value);
      }
    case Empty(name, attrs) =>
      OpenedIsReadable(r, name, attrs);
      ClosedIsReadable(Opened(r, name, attrs), name);
    case EndTag(name) =>
      ClosedIsReadable(r, name);
    case Cdata(n) =>
      CdataIsReadable(r, n, c);
    case _ =>
  }

  lemma NoAttributes()
    ensures HasReadableAttributes([]) && IsValue("")
  {
  }

  lemma KeyIsReadable(r: Reader, name: string, attrs: Attributes, key: string, c: char)
    requires HasReadable(r) && r.mode == Key(name, attrs, key)
    ensures HasReadable(StepKey(r, name, attrs, key, c))
  {
    hide AreReadable, HasReadableAttributes, IsName, IsNameStart, IsNameChar, Keys;
    if if key == "" then IsNameStart(c) else IsNameChar(c) {
      NameWithMore(key, c);
    }
  }

  lemma QuotedIsReadable(r: Reader, name: string, attrs: Attributes, key: string, value: string, c: char)
    requires HasReadable(r) && r.mode == Quoted(name, attrs, key, value)
    ensures HasReadable(StepQuoted(r, name, attrs, key, value, c))
  {
    hide AreReadable, IsName, IsValue;
    if IsChar(c) {
      ValueWithMore(value, NormalizedSpace(c));
    }
  }

  lemma {:induction false} ReadIsReadable(s: string)
    requires '\r' !in s
    ensures HasReadable(Read(START, s))
  {
    hide HasReadable, Step;
    if s == "" {
      StartIsReadable();
    } else {
      var n := |s| - 1;
      assert s[n] in s;
      ReadIsReadable(s[..n]);
      StepIsReadable(Read(START, s[..n]), s[n]);
    }
  }

  lemma StartIsReadable()
    ensures HasReadable(START)
  {
  }

  /** Whatever a document looks like, only permitted names and characters are
      reported, and neither carriage returns nor tabs in attribute values. */
  lemma DocumentIsReadable(text: string)
    ensures AreReadable(ReadDocument(text).events)
  {
    hide Normalized, Read;
    ReadIsReadable(Normalized(text));
  }
}
