/** Encoding character data and CDATA sections. */
module XmlEscape {
  import opened Wrappers
  import opened Sequences
  import opened XmlReader

  /** Replace each occurrence of a character with a string. */
  function Replace(s: string, c: char, t: string): string {
    if s == "" then "" else Replace(s[..|s| - 1], c, t) + if s[|s| - 1] == c then t else [s[|s| - 1]]
  }

  /** Escape metacharacters, starting with the one which begins a reference. */
  function Escape(data: string): string {
    Replace(Replace(Replace(Replace(data, '&', "&amp;"), '<', "&lt;"), '>', "&gt;"), '"', "&quot;")
  }

  function EscapeChar(c: char): string {
    match c
    case '&' => "&amp;"
    case '<' => "&lt;"
    case '>' => "&gt;"
    case '"' => "&quot;"
    case _ => [c]
  }

  lemma {:induction false} ReplaceSum(a: string, b: string, c: char, t: string)
    ensures Replace(a + b, c, t) == Replace(a, c, t) + Replace(b, c, t)
  {
    if b == "" {
      assert a + b == a;
    } else {
      var n := |b| - 1;
      ReplaceSum(a, b[..n], c, t);
      assert (a + b)[..|a + b| - 1] == a + b[..n];
      Associative(Replace(a, c, t), Replace(b[..n], c, t), if b[n] == c then t else [b[n]]);
    }
  }

  lemma {:induction false} ReplaceNothing(s: string, c: char, t: string)
    requires c !in s
    ensures Replace(s, c, t) == s
  {
    if s != "" {
      var n := |s| - 1;
      ReplaceNothing(s[..n], c, t);
      assert s == s[..n] + [s[n]];
    }
  }

  lemma ReplaceOne(c: char, t: string)
    ensures Replace([c], c, t) == t
  {
    assert [c][..0] == "";
    assert "" + t == t;
  }

  lemma EscapeSum(a: string, b: string)
    ensures Escape(a + b) == Escape(a) + Escape(b)
  {
    hide Replace;
    ReplaceSum(a, b, '&', "&amp;");
    var a1, b1 := Replace(a, '&', "&amp;"), Replace(b, '&', "&amp;");
    ReplaceSum(a1, b1, '<', "&lt;");
    var a2, b2 := Replace(a1, '<', "&lt;"), Replace(b1, '<', "&lt;");
    ReplaceSum(a2, b2, '>', "&gt;");
    ReplaceSum(Replace(a2, '>', "&gt;"), Replace(b2, '>', "&gt;"), '"', "&quot;");
  }

  /** Replacing one metacharacter after the other amounts to escaping each
      character once. */
  lemma EscapeOne(c: char)
    ensures Escape([c]) == EscapeChar(c)
  {
    hide Replace;
    if c == '&' {
      ReplaceOne('&', "&amp;");
    } else {
      ReplaceNothing([c], '&', "&amp;");
    }
    var s := if c == '&' then "&amp;" else [c];
    if c == '<' {
      ReplaceOne('<', "&lt;");
      s := "&lt;";
    } else {
      ReplaceNothing(s, '<', "&lt;");
    }
    if c == '>' {
      ReplaceOne('>', "&gt;");
      s := "&gt;";
    } else {
      ReplaceNothing(s, '>', "&gt;");
    }
    if c == '"' {
      ReplaceOne('"', "&quot;");
    } else {
      ReplaceNothing(s, '"', "&quot;");
    }
  }

  lemma EscapeMore(data: string)
    requires data != ""
    ensures Escape(data) == Escape(data[..|data| - 1]) + EscapeChar(data[|data| - 1])
  {
    hide Escape;
    var n := |data| - 1;
    assert data == data[..n] + [data[n]];
    EscapeSum(data[..n], [data[n]]);
    EscapeOne(data[n]);
  }

  /** Escaping adds no characters but those of the references. */
  lemma {:induction false} EscapeHasNoReturns(data: string)
    requires '\r' !in data
    ensures '\r' !in Escape(data)
  {
    hide Escape;
    if data == "" {
      EscapeNothing();
    } else {
      EscapeMore(data);
      EscapeHasNoReturns(data[..|data| - 1]);
    }
  }

  lemma EscapeNothing()
    ensures Escape("") == ""
  {
  }

  // Reading escaped text

  lemma ReadReference(r: Reader, entity: string, c: char)
    requires r.mode.Content? && r.open != []
    requires ';' !in entity && EntityValue(entity) == Some(c)
    ensures Read(r, "&" + entity + ";") == r.(events := r.events + [Character(c)])
  {
    hide Read, EntityValue;
    ReadSum(r, "&" + entity, ";");
    ReadSum(r, "&", entity);
    ReadChar(r, '&');
    ReadEntity(r.(mode := Reference("")), "", entity);
    assert "" + entity == entity;
    ReadChar(r.(mode := Reference(entity)), ';');
  }

  /** With more characters of the attribute value. */
  function WithValue(r: Reader, s: string): Reader
    requires r.mode.Quoted?
  {
    var m := r.mode;
    r.(mode := Quoted(m.name, m.attrs, m.key, m.value + s))
  }

  lemma ReadQuotedReference(r: Reader, entity: string, c: char)
    requires r.mode.Quoted?
    requires ';' !in entity && EntityValue(entity) == Some(c)
    ensures Read(r, "&" + entity + ";") == WithValue(r, [c])
  {
    hide Read, EntityValue, Step;
    var m := r.mode;
    var q := r.(mode := QuotedReference(m.name, m.attrs, m.key, m.value, ""));
    var q1 := q.(mode := QuotedReference(m.name, m.attrs, m.key, m.value, entity));
    ReadSum(r, "&" + entity, ";");
    ReadSum(r, "&", entity);
    ReadChar(r, '&');
    FirstOfReference(r);
    ReadQuotedEntity(q, "", entity);
    assert "" + entity == entity;
    ReadChar(q1, ';');
    LastOfReference(q1, c);
  }

  lemma FirstOfReference(r: Reader)
    requires r.mode.Quoted?
    ensures Step(r, '&').mode == QuotedReference(r.mode.name, r.mode.attrs, r.mode.key, r.mode.value, "")
    ensures Step(r, '&') == r.(mode := Step(r, '&').mode)
  {
  }

  lemma LastOfReference(r: Reader, c: char)
    requires r.mode.QuotedReference? && EntityValue(r.mode.entity) == Some(c)
    ensures Step(r, ';').mode == Quoted(r.mode.name, r.mode.attrs, r.mode.key, r.mode.value + [c])
    ensures Step(r, ';') == r.(mode := Step(r, ';').mode)
  {
    hide EntityValue;
  }

  predicate IsMeta(c: char) {
    c == '&' || c == '<' || c == '>' || c == '"'
  }

  function EntityOf(c: char): (entity: string)
    requires IsMeta(c)
    ensures ';' !in entity && EntityValue(entity) == Some(c)
  {
    if c == '&' then "amp" else if c == '<' then "lt" else if c == '>' then "gt" else "quot"
  }

  lemma EscapedIsReference(c: char)
    ensures EscapeChar(c) == if IsMeta(c) then "&" + EntityOf(c) + ";" else [c]
  {
  }

  lemma EscapedCharIsRead(r: Reader, c: char)
    requires r.mode.Content? && r.open != [] && IsTextChar(c)
    ensures Read(r, EscapeChar(c)) == r.(events := r.events + [Character(c)])
  {
    hide Read, EscapeChar, EntityOf;
    EscapedIsReference(c);
    if IsMeta(c) {
      ReadReference(r, EntityOf(c), c);
    } else {
      ReadChar(r, c);
    }
  }

  lemma PlainQuotedIsRead(r: Reader, c: char)
    requires r.mode.Quoted? && !IsMeta(c) && IsValueChar(c)
    ensures Read(r, [c]) == WithValue(r, [c])
  {
    hide Read;
    ReadChar(r, c);
  }

  lemma QuotedCharIsRead(r: Reader, c: char)
    requires r.mode.Quoted? && IsValueChar(c)
    ensures Read(r, EscapeChar(c)) == WithValue(r, [c])
  {
    hide Read, EscapeChar, EntityOf, EntityValue, IsMeta, WithValue;
    EscapedIsReference(c);
    if IsMeta(c) {
      ReadQuotedReference(r, EntityOf(c), c);
    } else {
      PlainQuotedIsRead(r, c);
    }
  }

  lemma CharactersOfSum(a: string, b: string)
    ensures Characters(a + b) == Characters(a) + Characters(b)
  {
  }

  /** Escaped character data is read as what it has been. */
  lemma {:induction false} EscapedIsRead(r: Reader, data: string)
    requires r.mode.Content? && r.open != [] && IsText(data)
    ensures Read(r, Escape(data)) == r.(events := r.events + Characters(data))
  {
    hide Step, EscapeChar, IsTextChar;
    if data == "" {
      assert r.events + Characters("") == r.events;
    } else {
      var n := |data| - 1;
      EscapeMore(data);
      EscapedIsRead(r, data[..n]);
      ReadSum(r, Escape(data[..n]), EscapeChar(data[n]));
      EscapedCharIsRead(r.(events := r.events + Characters(data[..n])), data[n]);
      CharactersOfMore(data);
    }
  }

  lemma WithMoreValue(r: Reader, a: string, b: string)
    requires r.mode.Quoted?
    ensures WithValue(WithValue(r, a), b) == WithValue(r, a + b)
  {
    Associative(r.mode.value, a, b);
  }

  lemma NoValue(r: Reader)
    requires r.mode.Quoted?
    ensures Read(r, Escape("")) == WithValue(r, "")
  {
    assert r.mode.value + "" == r.mode.value;
  }

  /** An escaped attribute value is read as what it has been. */
  lemma {:induction false} QuotedIsRead(r: Reader, data: string)
    requires r.mode.Quoted? && IsValue(data)
    ensures Read(r, Escape(data)) == WithValue(r, data)
  {
    hide Read, Escape, EscapeChar, IsValueChar;
    if data == "" {
      NoValue(r);
    } else {
      var n := |data| - 1;
      EscapeMore(data);
      QuotedIsRead(r, data[..n]);
      ReadSum(r, Escape(data[..n]), EscapeChar(data[n]));
      QuotedCharIsRead(WithValue(r, data[..n]), data[n]);
      WithMoreValue(r, data[..n], [data[n]]);
      assert data == data[..n] + [data[n]];
    }
  }

  // CDATA sections

  predicate EndsAt(s: string, i: nat) {
    i + 3 <= |s| && s[i] == ']' && s[i + 1] == ']' && s[i + 2] == '>'
  }

  /** The first position, not before the given one, where a section would end. */
  function FindEnd(s: string, i: nat): (n: nat)
    requires i <= |s|
    ensures i <= n <= |s|
    ensures n == |s| || EndsAt(s, n)
    ensures forall j: nat :: i <= j < n ==> !EndsAt(s, j)
    decreases |s| - i
  {
    if i == |s| || EndsAt(s, i) then i else FindEnd(s, i + 1)
  }

  /** End the section before each character sequence which would end it, and
      begin another one after it. */
  function SplitSections(s: string): string {
    var n := FindEnd(s, 0);
    if n == |s| then s else s[..n] + "]]>]]&gt;<![CDATA[" + SplitSections(s[n + 3..])
  }

  /** Data in which no section would end is written as it is; otherwise, the first
      end of a section is put between two sections. */
  lemma SectionsAreSplit(a: string, b: string)
    requires forall j: nat :: j < |a| ==> !EndsAt(a + "]]>" + b, j)
    ensures SplitSections(a + "]]>" + b) == a + "]]>]]&gt;<![CDATA[" + SplitSections(b)
  {
    var s := a + "]]>" + b;
    assert s[|a|] == ']' && s[|a| + 1] == ']' && s[|a| + 2] == '>';
    assert EndsAt(s, |a|) && FindEnd(s, 0) == |a|;
    assert s[..|a|] == a && s[|a| + 3..] == b;
  }

  lemma SectionIsKept(s: string)
    requires forall j: nat :: !EndsAt(s, j)
    ensures SplitSections(s) == s
  {
  }

  lemma {:induction false} SectionsHaveNoReturns(s: string)
    requires '\r' !in s
    ensures '\r' !in SplitSections(s)
    decreases |s|
  {
    var n := FindEnd(s, 0);
    if n < |s| {
      SectionsHaveNoReturns(s[n + 3..]);
    }
  }

  /** The number of closing brackets at the end, as far as it matters. */
  function Trailing(s: string): (n: nat)
    ensures n <= 2 && n <= |s|
    ensures s[|s| - n..] == Brackets(n)
  {
    if s == "" || s[|s| - 1] != ']' then 0
    else if |s| == 1 || s[|s| - 2] != ']' then 1
    else 2
  }

  function InSection(r: Reader, s: string): Reader {
    Reader(r.events + Characters(s[..|s| - Trailing(s)]), r.open, Cdata(Trailing(s)))
  }

  lemma SumOfCharacters(events: seq<Event>, a: string, b: string)
    ensures events + Characters(a) + Characters(b) == events + Characters(a + b)
  {
    hide Characters;
    CharactersOfSum(a, b);
    Associative(events, Characters(a), Characters(b));
  }

  lemma OneCharacter(c: char)
    ensures Characters([c]) == [Character(c)]
  {
  }

  lemma WithoutLast(t: string, c: char)
    requires |t| >= 2 && t[|t| - 2] == c
    ensures t[..|t| - 2] + [c] == (t + [c])[..|t| - 1]
  {
  }

  lemma BracketInSection(events: seq<Event>, t: string)
    requires Trailing(t) == 2
    ensures events + Characters(t[..|t| - 2]) + [Character(']')] == events + Characters((t + [']'])[..|t| - 1])
  {
    hide Characters, Trailing;
    TwoBrackets(t);
    WithoutLast(t, ']');
    OneCharacter(']');
    SumOfCharacters(events, t[..|t| - 2], [']']);
  }

  lemma WithBrackets(t: string, n: nat)
    requires n <= |t| && t[|t| - n..] == Brackets(n)
    ensures t[..|t| - n] + Brackets(n) == t
  {
  }

  lemma OtherInSection(events: seq<Event>, t: string, k: nat, c: char)
    requires k <= |t| && t[|t| - k..] == Brackets(k)
    ensures events + Characters(t[..|t| - k]) + Characters(Brackets(k)) + [Character(c)] == events + Characters(t + [c])
  {
    hide Characters, Brackets;
    WithBrackets(t, k);
    SumOfCharacters(events, t[..|t| - k], Brackets(k));
    OneCharacter(c);
    SumOfCharacters(events, t, [c]);
  }

  lemma TwoBrackets(t: string)
    requires Trailing(t) == 2
    ensures |t| >= 2 && t[|t| - 2] == ']' && t[|t| - 1] == ']'
  {
    hide Trailing;
    assert t[|t| - 2] == t[|t| - 2..][0] && t[|t| - 1] == t[|t| - 2..][1];
  }

  lemma TrailingMore(t: string, c: char)
    ensures Trailing(t + [c]) == if c != ']' then 0 else if Trailing(t) == 2 then 2 else Trailing(t) + 1
  {
  }

  /** One more character which doesn't end the section. */
  lemma OneMoreInSection(r: Reader, t: string, c: char)
    requires IsTextChar(c)
    requires |t| >= 2 ==> !EndsAt(t + [c], |t| - 2)
    ensures Step(InSection(r, t), c) == InSection(r, t + [c])
  {
    hide Step, StepCdata, InSection, Trailing, EndsAt;
    StepInSection(r, t, c);
    if c == ']' {
      BracketStep(r, t);
    } else {
      NoEndYet(t, c);
      OtherStep(r, t, c);
    }
  }

  lemma StepInSection(r: Reader, t: string, c: char)
    ensures Step(InSection(r, t), c) == StepCdata(InSection(r, t), Trailing(t), c)
  {
    hide Trailing, Characters, StepCdata;
  }

  lemma BracketStep(r: Reader, t: string)
    ensures StepCdata(InSection(r, t), Trailing(t), ']') == InSection(r, t + [']'])
  {
    hide Trailing, Characters;
    TrailingMore(t, ']');
    var k := Trailing(t);
    if k == 2 {
      BracketInSection(r.events, t);
    } else {
      assert (t + [']'])[..|t| - k] == t[..|t| - k];
    }
  }

  lemma OtherStep(r: Reader, t: string, c: char)
    requires c != ']' && IsTextChar(c) && !(Trailing(t) == 2 && c == '>')
    ensures StepCdata(InSection(r, t), Trailing(t), c) == InSection(r, t + [c])
  {
    hide Trailing, Characters, Brackets;
    TrailingMore(t, c);
    OtherInSection(r.events, t, Trailing(t), c);
    assert (t + [c])[..|t| + 1 - 0] == t + [c];
  }

  lemma NoEndYet(t: string, c: char)
    requires |t| >= 2 ==> !EndsAt(t + [c], |t| - 2)
    ensures !(Trailing(t) == 2 && c == '>')
  {
    hide Trailing;
    if Trailing(t) == 2 {
      TwoBrackets(t);
    }
  }

  lemma {:induction false} SectionIsRead(r: Reader, s: string)
    requires r.mode == Cdata(0) && IsText(s) && forall i: nat :: !EndsAt(s, i)
    ensures Read(r, s) == InSection(r, s)
  {
    hide Step;
    if s == "" {
      assert r.events + Characters("") == r.events;
    } else {
      var n := |s| - 1;
      forall i: nat ensures !EndsAt(s[..n], i) {
        assert !EndsAt(s, i);
      }
      SectionIsRead(r, s[..n]);
      assert s[..n] + [s[n]] == s;
      OneMoreInSection(r, s[..n], s[n]);
    }
  }

  lemma FewBrackets()
    ensures Characters(Brackets(0)) == []
    ensures Characters(Brackets(1)) == [Character(']')]
    ensures Characters(Brackets(2)) == [Character(']')] + [Character(']')]
  {
  }

  lemma SectionEnds(r: Reader, s: string)
    ensures Read(InSection(r, s), "]]>") == Reader(r.events + Characters(s), r.open, Content)
  {
    hide Read, Trailing, Characters;
    var k := Trailing(s);
    var q := InSection(r, s);
    assert "]]>" == "]]" + [">"[0]] && "]]" == "]" + ["]"[0]];
    ReadSum(q, "]]", ">");
    ReadSum(q, "]", "]");
    ReadChar(q, ']');
    var q1 := Step(q, ']');
    ReadChar(q1, ']');
    var q2 := Step(q1, ']');
    ReadChar(q2, '>');
    assert s == s[..|s| - k] + Brackets(k);
    CharactersOfSum(s[..|s| - k], Brackets(k));
    FewBrackets();
    assert q2.mode == Cdata(2);
    assert q2.events == r.events + Characters(s);
  }

  lemma EndIsEscaped()
    ensures Escape("]]>") == "]]&gt;"
  {
    hide Escape;
    EscapeMore("]]>");
    EscapeMore("]]");
    EscapeOne(']');
    assert "]]>"[..2] == "]]" && "]]"[..1] == [']'];
    assert "]" + "]" == "]]" && "]]" + "&gt;" == "]]&gt;";
  }

  const BETWEEN := "]]>]]&gt;<![CDATA["

  /** Between two sections, the end of a section is read as character data. */
  lemma BetweenIsRead(r: Reader, s: string)
    requires r.open != []
    ensures Read(InSection(r, s), BETWEEN) == Reader(r.events + Characters(s) + Characters("]]>"), r.open, Cdata(0))
  {
    hide Read, InSection, Escape, Characters, BETWEEN;
    var q := InSection(r, s);
    EndIsEscaped();
    BetweenIsSum();
    ReadSum(q, "]]>" + Escape("]]>"), "<![CDATA[");
    ReadSum(q, "]]>", Escape("]]>"));
    SectionEnds(r, s);
    var q1 := Reader(r.events + Characters(s), r.open, Content);
    EscapedIsRead(q1, "]]>");
    CdataStartIsRead(q1.(events := q1.events + Characters("]]>")));
  }

  lemma BetweenIsSum()
    ensures BETWEEN == "]]>" + "]]&gt;" + "<![CDATA["
  {
  }

  lemma NoEndBefore(s: string, n: nat)
    requires n == FindEnd(s, 0)
    ensures forall i: nat :: !EndsAt(s[..n], i)
  {
    forall i: nat ensures !EndsAt(s[..n], i) {
      assert EndsAt(s[..n], i) ==> EndsAt(s, i);
    }
  }

  lemma SumAroundEnd(events: seq<Event>, s: string, n: nat)
    requires EndsAt(s, n)
    ensures events + Characters(s[..n]) + Characters("]]>") + Characters(s[n + 3..]) == events + Characters(s)
  {
    assert s == s[..n] + "]]>" + s[n + 3..];
    CharactersOfSum(s[..n] + "]]>", s[n + 3..]);
    CharactersOfSum(s[..n], "]]>");
  }

  /** Data which has been split over CDATA sections is read as what it has
      been. */
  lemma {:induction false} SectionsAreRead(r: Reader, s: string)
    requires r.mode == Cdata(0) && r.open != [] && IsText(s)
    ensures Read(r, SplitSections(s) + "]]>") == Reader(r.events + Characters(s), r.open, Content)
    decreases |s|
  {
    hide Read, InSection, EndsAt, Characters;
    var n := FindEnd(s, 0);
    NoEndBefore(s, n);
    SectionIsRead(r, s[..n]);
    assert s[..|s|] == s;
    if n == |s| {
      ReadSum(r, s, "]]>");
      SectionEnds(r, s);
    } else {
      EndFits(s, n);
      var rest := SplitSections(s[n + 3..]) + "]]>";
      Associative(s[..n] + BETWEEN, SplitSections(s[n + 3..]), "]]>");
      ReadSum(r, s[..n] + BETWEEN, rest);
      ReadSum(r, s[..n], BETWEEN);
      BetweenIsRead(r, s[..n]);
      SectionsAreRead(Reader(r.events + Characters(s[..n]) + Characters("]]>"), r.open, Cdata(0)), s[n + 3..]);
      SumAroundEnd(r.events, s, n);
    }
  }

  lemma EndFits(s: string, n: nat)
    requires EndsAt(s, n)
    ensures n + 3 <= |s|
  {
  }

  lemma CdataIsRead(r: Reader, data: string)
    requires r.mode.Content? && r.open != [] && IsText(data)
    ensures Read(r, "<![CDATA[" + SplitSections(data) + "]]>") == r.(events := r.events + Characters(data))
  {
    hide Read, SplitSections;
    Associative("<![CDATA[", SplitSections(data), "]]>");
    ReadSum(r, "<![CDATA[", SplitSections(data) + "]]>");
    CdataStartIsRead(r);
    SectionsAreRead(r.(mode := Cdata(0)), data);
  }
}
