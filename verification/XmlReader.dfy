/** Reading XML documents, one character at a time.

    This is an independent definition of what a document means.  It covers the
    part of XML 1.0 which the writer makes use of: one root element, start tags,
    end tags and empty-element tags with attributes (section 3.1), references to
    the predefined entities (section 4.6), and CDATA sections (section 2.7).
    What is read here is well-formed: tags match, there are no two attributes of
    the same name in a tag, there is nothing but white space outside of the root
    element, and all characters are permitted (section 2.2).  Line ends are
    normalized before reading (section 2.11), and white space in attribute
    values while reading (section 3.3.3). */
module XmlReader {
  import opened Wrappers
  import opened XmlNames

  type Attributes = seq<(string, string)>

  datatype Event =
    | Open(name: string, attrs: Attributes)
    | Close(name: string)
    | Character(c: char)

  datatype Mode =
    | Declaration(n: nat)
    | Content
    | Reference(entity: string)
    | Tag
    | Name(name: string)
    | Inside(name: string, attrs: Attributes)
    | Key(name: string, attrs: Attributes, key: string)
    | Equals(name: string, attrs: Attributes, key: string)
    | Quoted(name: string, attrs: Attributes, key: string, value: string)
    | QuotedReference(name: string, attrs: Attributes, key: string, value: string, entity: string)
    | Empty(name: string, attrs: Attributes)
    | EndTag(name: string)
    | Markup(n: nat)
    | Cdata(brackets: nat)
    | Failed

  /** What has been read, the names of the elements which haven't been closed,
      and how to go on. */
  datatype Reader = Reader(events: seq<Event>, open: seq<string>, mode: Mode)

  const DECLARATION := "<?xml version=\"1.0\" encoding=\"UTF-8\"?>"
  const CDATA_START := "![CDATA["

  const START := Reader([], [], Declaration(0))

  predicate IsSpace(c: char) {
    c == ' ' || c == '\n' || c == '\t' || c == '\r'
  }

  /** The characters a document may contain. */
  predicate IsChar(c: char) {
    c == '\t' || c == '\n' || c == '\r' || ' ' <= c <= '\U{d7ff}' || '\U{e000}' <= c <= '\U{fffd}' || '\U{10000}' <= c
  }

  /** A white space character in an attribute value stands for a space. */
  function NormalizedSpace(c: char): char {
    if IsSpace(c) then ' ' else c
  }

  /** Replace all line ends by line feeds. */
  function Normalized(text: string): (r: string)
    ensures '\r' !in r
  {
    if text == "" then ""
    else if text[0] != '\r' then [text[0]] + Normalized(text[1..])
    else if |text| > 1 && text[1] == '\n' then "\n" + Normalized(text[2..])
    else "\n" + Normalized(text[1..])
  }

  function EntityValue(entity: string): Option<char> {
    if entity == "amp" then Some('&')
    else if entity == "lt" then Some('<')
    else if entity == "gt" then Some('>')
    else if entity == "quot" then Some('"')
    else if entity == "apos" then Some('\'')
    else None
  }

  function Keys(attrs: Attributes): seq<string> {
    seq(|attrs|, i requires 0 <= i < |attrs| => attrs[i].0)
  }

  function Characters(s: string): (r: seq<Event>)
    ensures |r| == |s|
  {
    seq(|s|, i requires 0 <= i < |s| => Character(s[i]))
  }

  function Brackets(n: nat): string {
    seq(n, _ => ']')
  }

  function Opened(r: Reader, name: string, attrs: Attributes): Reader {
    if r.open == [] && r.events != [] then r.(mode := Failed)
    else Reader(r.events + [Open(name, attrs)], r.open + [name], Content)
  }

  function Closed(r: Reader, name: string): Reader {
    if r.open == [] || r.open[|r.open| - 1] != name then r.(mode := Failed)
    else Reader(r.events + [Close(name)], r.open[..|r.open| - 1], Content)
  }

  function CloseAtOnce(r: Reader, name: string): Reader {
    if r.mode.Failed? then r else Closed(r, name)
  }

  /** Read white space between attributes, or the end of a start tag. */
  function StepInside(r: Reader, name: string, attrs: Attributes, c: char): Reader {
    if c == ' ' then r.(mode := Key(name, attrs, ""))
    else if c == '/' then r.(mode := Empty(name, attrs))
    else if c == '>' then Opened(r, name, attrs)
    else r.(mode := Failed)
  }

  function StepContent(r: Reader, c: char): Reader {
    if c == '<' then r.(mode := Tag)
    else if r.open == [] then if IsSpace(c) then r else r.(mode := Failed)
    else if c == '&' then r.(mode := Reference(""))
    else if c == '>' || !IsChar(c) then r.(mode := Failed)
    else r.(events := r.events + [Character(c)])
  }

  function StepReference(r: Reader, entity: string, c: char): Reader {
    if c != ';' then r.(mode := Reference(entity + [c]))
    else if EntityValue(entity).None? then r.(mode := Failed)
    else Reader(r.events + [Character(EntityValue(entity).value)], r.open, Content)
  }

  function StepTag(r: Reader, c: char): Reader {
    if c == '/' then r.(mode := EndTag(""))
    else if c == '!' && r.open != [] then r.(mode := Markup(1))
    else if IsNameStart(c) then r.(mode := Name([c]))
    else r.(mode := Failed)
  }

  function StepKey(r: Reader, name: string, attrs: Attributes, key: string, c: char): Reader {
    if c == '=' then
      if key == "" || key in Keys(attrs) then r.(mode := Failed) else r.(mode := Equals(name, attrs, key))
    else if if key == "" then IsNameStart(c) else IsNameChar(c) then r.(mode := Key(name, attrs, key + [c]))
    else r.(mode := Failed)
  }

  function StepQuoted(r: Reader, name: string, attrs: Attributes, key: string, value: string, c: char): Reader {
    if c == '"' then r.(mode := Inside(name, attrs + [(key, value)]))
    else if c == '&' then r.(mode := QuotedReference(name, attrs, key, value, ""))
    else if c == '<' || !IsChar(c) then r.(mode := Failed)
    else r.(mode := Quoted(name, attrs, key, value + [NormalizedSpace(c)]))
  }

  function StepQuotedReference(r: Reader, name: string, attrs: Attributes, key: string, value: string,
                               entity: string, c: char): Reader {
    if c != ';' then r.(mode := QuotedReference(name, attrs, key, value, entity + [c]))
    else if EntityValue(entity).None? then r.(mode := Failed)
    else r.(mode := Quoted(name, attrs, key, value + [EntityValue(entity).value]))
  }

  function StepCdata(r: Reader, brackets: nat, c: char): Reader {
    if c == ']' then
      if brackets < 2 then r.(mode := Cdata(brackets + 1)) else r.(events := r.events + [Character(']')])
    else if c == '>' && brackets == 2 then r.(mode := Content)
    else if !IsChar(c) then r.(mode := Failed)
    else Reader(r.events + Characters(Brackets(brackets)) + [Character(c)], r.open, Cdata(0))
  }

  function Step(r: Reader, c: char): Reader {
    match r.mode
    case Declaration(n) =>
      if n >= |DECLARATION| || c != DECLARATION[n] then r.(mode := Failed)
      else if n + 1 == |DECLARATION| then r.(mode := Content)
      else r.(mode := Declaration(n + 1))
    case Content => StepContent(r, c)
    case Reference(entity) => StepReference(r, entity, c)
    case Tag => StepTag(r, c)
    case Name(name) =>
      if IsNameChar(c) then r.(mode := Name(name + [c])) else StepInside(r, name, [], c)
    case Inside(name, attrs) => StepInside(r, name, attrs, c)
    case Key(name, attrs, key) => StepKey(r, name, attrs, key, c)
    case Equals(name, attrs, key) =>
      if c == '"' then r.(mode := Quoted(name, attrs, key, "")) else r.(mode := Failed)
    case Quoted(name, attrs, key, value) => StepQuoted(r, name, attrs, key, value, c)
    case QuotedReference(name, attrs, key, value, entity) =>
      StepQuotedReference(r, name, attrs, key, value, entity, c)
    case Empty(name, attrs) =>
      if c == '>' then CloseAtOnce(Opened(r, name, attrs), name) else r.(mode := Failed)
    case EndTag(name) =>
      if c == '>' then Closed(r, name) else r.(mode := EndTag(name + [c]))
    case Markup(n) =>
      if n >= |CDATA_START| || c != CDATA_START[n] then r.(mode := Failed)
      else if n + 1 == |CDATA_START| then r.(mode := Cdata(0))
      else r.(mode := Markup(n + 1))
    case Cdata(brackets) => StepCdata(r, brackets, c)
    case Failed => r
  }

  function Read(r: Reader, s: string): Reader {
    if s == "" then r else Step(Read(r, s[..|s| - 1]), s[|s| - 1])
  }

  /** Read a whole document. */
  function ReadDocument(text: string): Reader {
    Read(START, Normalized(text))
  }

  /** The root element has been read. */
  predicate IsComplete(r: Reader) {
    r.mode.Content? && r.open == [] && r.events != []
  }

  // What can be read

  predicate IsTextChar(c: char) {
    IsChar(c) && c != '\r'
  }

  predicate IsValueChar(c: char) {
    IsChar(c) && c != '\r' && c != '\n' && c != '\t'
  }

  /** Data which can be read as it is: permitted characters except for a
      carriage return. */
  predicate IsText(s: string) {
    forall c :: c in s ==> IsTextChar(c)
  }

  /** Attribute values which can be read as they are: no line ends and tabs,
      either. */
  predicate IsValue(s: string) {
    forall c :: c in s ==> IsValueChar(c)
  }

  // Reading pieces

  lemma {:induction false} NothingToNormalize(text: string)
    requires '\r' !in text
    ensures Normalized(text) == text
    decreases |text|
  {
    if text != "" {
      assert text[0] in text;
      NothingToNormalize(text[1..]);
      assert text == [text[0]] + text[1..];
    }
  }

  lemma {:induction false} ReadSum(r: Reader, a: string, b: string)
    ensures Read(r, a + b) == Read(Read(r, a), b)
  {
    hide Step;
    if b == "" {
      assert a + b == a;
    } else {
      var n := |b| - 1;
      ReadSum(r, a, b[..n]);
      assert (a + b)[..|a + b| - 1] == a + b[..n];
    }
  }

  lemma ReadChar(r: Reader, c: char)
    ensures Read(r, [c]) == Step(r, c)
  {
    assert [c][..0] == "";
  }

  lemma ReadNothing(r: Reader)
    ensures Read(r, "") == r
  {
  }

  lemma {:induction false} FailedForever(r: Reader, s: string)
    requires r.mode.Failed?
    ensures Read(r, s) == r
  {
    if s != "" {
      FailedForever(r, s[..|s| - 1]);
    }
  }

  lemma {:induction false} ReadDeclaration(n: nat)
    requires n < |DECLARATION|
    ensures Read(START, DECLARATION[..n]) == START.(mode := Declaration(n))
  {
    if n > 0 {
      ReadDeclaration(n - 1);
      assert DECLARATION[..n][..n - 1] == DECLARATION[..n - 1];
    }
  }

  lemma DeclarationIsRead()
    ensures Read(START, DECLARATION) == START.(mode := Content)
  {
    var n := |DECLARATION| - 1;
    ReadDeclaration(n);
  }

  lemma {:induction false} ReadSpace(r: Reader, s: string)
    requires r.mode.Content? && forall c :: c in s ==> IsSpace(c)
    ensures Read(r, s) == if r.open == [] then r else r.(events := r.events + Characters(s))
  {
    if s == "" {
      assert r.events + Characters(s) == r.events;
    } else {
      var n := |s| - 1;
      assert s[n] in s;
      ReadSpace(r, s[..n]);
      CharactersOfMore(s);
    }
  }

  lemma CharactersOfMore(s: string)
    requires s != ""
    ensures
      var n := |s| - 1;
      forall events: seq<Event> :: events + Characters(s) == events + Characters(s[..n]) + [Character(s[n])]
  {
    var n := |s| - 1;
    assert Characters(s) == Characters(s[..n]) + [Character(s[n])];
  }

  lemma {:induction false} ReadEntity(r: Reader, a: string, b: string)
    requires r.mode == Reference(a) && ';' !in b
    ensures Read(r, b) == r.(mode := Reference(a + b))
  {
    if b == "" {
      assert a + b == a;
    } else {
      var n := |b| - 1;
      ReadEntity(r, a, b[..n]);
      assert a + b == a + b[..n] + [b[n]];
    }
  }

  lemma {:induction false} ReadQuotedEntity(r: Reader, a: string, b: string)
    requires r.mode.QuotedReference? && r.mode.entity == a && ';' !in b
    ensures Read(r, b) == r.(mode := QuotedReference(r.mode.name, r.mode.attrs, r.mode.key, r.mode.value, a + b))
  {
    if b == "" {
      assert a + b == a;
    } else {
      var n := |b| - 1;
      ReadQuotedEntity(r, a, b[..n]);
      assert a + b == a + b[..n] + [b[n]];
    }
  }

  lemma {:induction false} ReadNameChars(r: Reader, a: string, b: string)
    requires r.mode == Name(a) && forall c :: c in b ==> IsNameChar(c)
    ensures Read(r, b) == r.(mode := Name(a + b))
  {
    hide IsNameChar;
    if b == "" {
      assert a + b == a;
    } else {
      var n := |b| - 1;
      ReadNameChars(r, a, b[..n]);
      assert b[n] in b;
      assert a + b == a + b[..n] + [b[n]];
    }
  }

  lemma ReadName(r: Reader, name: string)
    requires r.mode.Tag? && IsName(name)
    ensures Read(r, name) == r.(mode := Name(name))
  {
    hide IsNameChar, IsNameStart;
    assert name == name[..1] + name[1..];
    ReadSum(r, name[..1], name[1..]);
    assert name[..1] == [name[0]];
    ReadChar(r, name[0]);
    SpecialAreNoNames();
    ReadNameChars(Step(r, name[0]), [name[0]], name[1..]);
  }

  /** The characters with a special meaning aren't part of names. */
  lemma SpecialAreNoNames()
    ensures !IsNameChar('/') && !IsNameChar('!') && !IsNameChar('=') && !IsNameChar('>') && !IsNameChar(' ')
    ensures !IsNameStart('/') && !IsNameStart('!') && !IsNameStart('=')
  {
  }

  lemma {:induction false} ReadKey(r: Reader, a: string, b: string)
    requires r.mode.Key? && r.mode.key == a && (a + b == "" || IsName(a + b))
    ensures Read(r, b) == r.(mode := Key(r.mode.name, r.mode.attrs, a + b))
  {
    hide IsNameChar, IsNameStart;
    if b == "" {
      assert a + b == a;
    } else {
      var n := |b| - 1;
      assert a + b == a + b[..n] + [b[n]];
      if a + b[..n] != "" {
        assert (a + b)[0] == (a + b[..n])[0];
      }
      ReadKey(r, a, b[..n]);
      SpecialAreNoNames();
      assert (a + b)[|a + b| - 1] == b[n] && b[n] in a + b;
    }
  }

  lemma {:induction false} ReadEndTag(r: Reader, a: string, b: string)
    requires r.mode == EndTag(a) && '>' !in b
    ensures Read(r, b) == r.(mode := EndTag(a + b))
  {
    if b == "" {
      assert a + b == a;
    } else {
      var n := |b| - 1;
      ReadEndTag(r, a, b[..n]);
      assert a + b == a + b[..n] + [b[n]];
    }
  }

  lemma {:induction false} ReadMarkup(r: Reader, n: nat)
    requires r.mode.Tag? && r.open != [] && 1 <= n < |CDATA_START|
    ensures Read(r, CDATA_START[..n]) == r.(mode := Markup(n))
  {
    if n == 1 {
      assert CDATA_START[..1] == ['!'];
      ReadChar(r, '!');
    } else {
      ReadMarkup(r, n - 1);
      assert CDATA_START[..n][..n - 1] == CDATA_START[..n - 1];
    }
  }

  lemma CdataStartIsRead(r: Reader)
    requires r.mode.Content? && r.open != []
    ensures Read(r, "<![CDATA[") == r.(mode := Cdata(0))
  {
    hide Step;
    assert "<![CDATA[" == ['<'] + CDATA_START;
    ReadSum(r, ['<'], CDATA_START);
    ReadChar(r, '<');
    var n := |CDATA_START| - 1;
    FirstOfTag(r);
    ReadMarkup(r.(mode := Tag), n);
    LastOfMarkup(r.(mode := Markup(n)));
  }

  lemma FirstOfTag(r: Reader)
    requires r.mode.Content?
    ensures Step(r, '<') == r.(mode := Tag)
  {
  }

  lemma LastOfMarkup(r: Reader)
    requires r.mode == Markup(|CDATA_START| - 1)
    ensures Step(r, CDATA_START[|CDATA_START| - 1]) == r.(mode := Cdata(0))
  {
  }
}
