/** How the pieces which make up a document are read. */
module XmlPieces {
  import opened Sequences
  import opened XmlNames
  import opened XmlReader
  import opened XmlEscape

  /** After the name of an element or after an attribute. */
  ghost predicate IsTagMode(mode: Mode, name: string, attrs: Attributes) {
    mode == Inside(name, attrs) || (mode == Name(name) && attrs == [])
  }

  lemma StepInTag(r: Reader, name: string, attrs: Attributes, c: char)
    requires IsTagMode(r.mode, name, attrs) && !IsNameChar(c)
    ensures Step(r, c) == StepInside(r, name, attrs, c)
  {
    hide StepInside, IsNameChar;
  }

  lemma ReadTagEnd(r: Reader, name: string, attrs: Attributes)
    requires IsTagMode(r.mode, name, attrs) && (r.open == [] ==> r.events == [])
    ensures Read(r, ">") == Reader(r.events + [Open(name, attrs)], r.open + [name], Content)
  {
    hide Read, Step, IsTagMode, IsNameChar;
    SpecialAreNoNames();
    ReadChar(r, '>');
    StepInTag(r, name, attrs, '>');
  }

  lemma StepEmpty(r: Reader, name: string, attrs: Attributes)
    requires r.mode == Empty(name, attrs) && (r.open == [] ==> r.events == [])
    ensures Step(r, '>') == Reader(r.events + [Open(name, attrs)] + [Close(name)], r.open, Content)
  {
    assert (r.open + [name])[..|r.open|] == r.open;
  }

  lemma ReadEmptyTagEnd(r: Reader, name: string, attrs: Attributes)
    requires IsTagMode(r.mode, name, attrs) && (r.open == [] ==> r.events == [])
    ensures Read(r, "/>") == Reader(r.events + [Open(name, attrs)] + [Close(name)], r.open, Content)
  {
    hide Read, Step, IsTagMode, IsNameChar;
    SpecialAreNoNames();
    assert "/>" == "/" + ">";
    ReadSum(r, "/", ">");
    ReadChar(r, '/');
    StepInTag(r, name, attrs, '/');
    ReadChar(Step(r, '/'), '>');
    StepEmpty(r.(mode := Empty(name, attrs)), name, attrs);
  }

  lemma ReadTagStart(r: Reader, name: string)
    requires r.mode.Content? && IsName(name)
    ensures Read(r, "<" + name) == r.(mode := Name(name))
  {
    hide Read, Step, IsName;
    ReadSum(r, "<", name);
    ReadChar(r, '<');
    FirstOfTag(r);
    ReadName(r.(mode := Tag), name);
  }

  lemma StepEndTag(r: Reader)
    ensures r.mode.Tag? ==> Step(r, '/') == r.(mode := EndTag(""))
    ensures r.mode.EndTag? ==> Step(r, '>') == Closed(r, r.mode.name)
  {
    hide Closed;
  }

  lemma ReadEndOfElement(r: Reader, name: string)
    requires r.mode.Content? && r.open != [] && r.open[|r.open| - 1] == name && '>' !in name
    ensures Read(r, "</" + name + ">") == Reader(r.events + [Close(name)], r.open[..|r.open| - 1], Content)
  {
    hide Read, Step;
    assert "</" == "<" + "/";
    ReadSum(r, "</" + name, ">");
    ReadSum(r, "</", name);
    ReadSum(r, "<", "/");
    ReadChar(r, '<');
    FirstOfTag(r);
    var q := r.(mode := Tag);
    ReadChar(q, '/');
    StepEndTag(q);
    ReadEndTag(q.(mode := EndTag("")), "", name);
    assert "" + name == name;
    var q1 := q.(mode := EndTag(name));
    ReadChar(q1, '>');
    StepEndTag(q1);
  }

  lemma StepsOfAttribute(r: Reader, name: string, attrs: Attributes, key: string, value: string)
    ensures r.mode == Equals(name, attrs, key) ==> Step(r, '"') == r.(mode := Quoted(name, attrs, key, ""))
    ensures r.mode == Quoted(name, attrs, key, value) ==> Step(r, '"') == r.(mode := Inside(name, attrs + [(key, value)]))
  {
  }

  lemma StepEquals(r: Reader, name: string, attrs: Attributes, key: string)
    requires r.mode == Key(name, attrs, key) && key != "" && key !in Keys(attrs)
    ensures Step(r, '=') == r.(mode := Equals(name, attrs, key))
  {
    hide IsNameStart, IsNameChar;
  }

  lemma ReadAttributeName(r: Reader, name: string, attrs: Attributes, key: string)
    requires IsTagMode(r.mode, name, attrs)
    requires IsName(key)
    ensures Read(r, " " + key) == r.(mode := Key(name, attrs, key))
  {
    hide Read, Step, IsTagMode, IsName, IsNameChar;
    SpecialAreNoNames();
    ReadSum(r, " ", key);
    ReadChar(r, ' ');
    StepInTag(r, name, attrs, ' ');
    assert "" + key == key;
    ReadKey(r.(mode := Key(name, attrs, "")), "", key);
  }

  lemma ReadAttributeValue(r: Reader, name: string, attrs: Attributes, key: string, value: string)
    requires r.mode == Key(name, attrs, key) && key != "" && key !in Keys(attrs) && IsValue(value)
    ensures Read(r, "=\"" + Escape(value) + "\"") == r.(mode := Inside(name, attrs + [(key, value)]))
  {
    hide Read, Step, Escape;
    assert "=\"" == "=" + "\"";
    ReadSum(r, "=\"" + Escape(value), "\"");
    ReadSum(r, "=\"", Escape(value));
    ReadSum(r, "=", "\"");
    ReadChar(r, '=');
    StepEquals(r, name, attrs, key);
    var q := r.(mode := Equals(name, attrs, key));
    ReadChar(q, '"');
    StepsOfAttribute(q, name, attrs, key, value);
    var q1 := r.(mode := Quoted(name, attrs, key, ""));
    QuotedIsRead(q1, value);
    assert "" + value == value;
    var q2 := r.(mode := Quoted(name, attrs, key, value));
    ReadChar(q2, '"');
    StepsOfAttribute(q2, name, attrs, key, value);
  }

  /** An attribute is read with the value which has been written. */
  lemma ReadAttribute(r: Reader, name: string, attrs: Attributes, key: string, value: string)
    requires IsTagMode(r.mode, name, attrs)
    requires IsName(key) && key !in Keys(attrs) && IsValue(value)
    ensures Read(r, " " + key + "=\"" + Escape(value) + "\"") == r.(mode := Inside(name, attrs + [(key, value)]))
  {
    hide Read, IsTagMode, Escape;
    Associative(" " + key, "=\"", Escape(value));
    Associative(" " + key, "=\"" + Escape(value), "\"");
    ReadSum(r, " " + key, "=\"" + Escape(value) + "\"");
    ReadAttributeName(r, name, attrs, key);
    ReadAttributeValue(r.(mode := Key(name, attrs, key)), name, attrs, key, value);
  }
}
