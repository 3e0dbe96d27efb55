/** Reading files which haven't been written by the program: values out of range,
    lines without meaning, and lines which are missing. */
module PlainTolerance {
  import opened Wrappers
  import opened Sequences
  import opened ObjectData
  import opened Decimals
  import opened PlainFormat
  import opened PlainText
  import opened PlainLines
  import opened PlainObjects
  import opened Streams
  import Base64Decoding
  import opened Drawings
  import opened PlainWrite
  import opened PlainRead
  import opened PlainReturn
  import opened PlainRoundTrip
  import opened PlainVersions

  // Values out of range

  /** Values which are permitted are kept, and others are replaced: colors by that
      of graphics, angles and alignments by zero, and negative radiuses by zero. */
  lemma RepairsExactly(v: int)
    ensures 0 <= v <= 20 ==> FixColor(v) == v
    ensures v < 0 || v > 20 ==> FixColor(v) == 3
    ensures v in {0, 90, 180, 270} ==> FixAngle(v) == v
    ensures v !in {0, 90, 180, 270} ==> FixAngle(v) == 0
    ensures FixRadius(v) >= 0 && (v >= 0 ==> FixRadius(v) == v) && (v < 0 ==> FixRadius(v) == 0)
    ensures v in {0, 1, 2, 3, 4, 5, 6, 7, 8} ==> FixAlignment(v) == v
    ensures v < 0 || v > 8 ==> FixAlignment(v) == 0
  {
  }

  /** Whether colors, angles, radiuses and alignments are permitted, and nothing is
      set which the styles don't use. */
  ghost predicate IsRepaired(d: Data<Symbol, Pixmap>) {
    && Normalize(d) == d
    && match d
       case ArcData(a) => 0 <= a.color <= 20 && a.radius >= 0
       case BoxData(b) => 0 <= b.color <= 20
       case CircleData(c) => 0 <= c.color <= 20 && c.radius >= 0
       case ComponentData(c) => c.angle in {0, 90, 180, 270}
       case LineData(l) => 0 <= l.color <= 20
       case NetData(n) => 0 <= n.color <= 20 && (n.isInverted ==> n.isPin)
       case PathData(p) => 0 <= p.color <= 20
       case PictureData(i) => i.angle in {0, 90, 180, 270}
       case TextData(t) => 0 <= t.color <= 20 && t.angle in {0, 90, 180, 270} && 0 <= t.alignment <= 8
  }

  lemma NormalizedTwice()
    ensures forall l {:trigger NormalizeLine(l)} :: NormalizeLine(NormalizeLine(l)) == NormalizeLine(l)
    ensures forall f {:trigger NormalizeFill(f)} :: NormalizeFill(NormalizeFill(f)) == NormalizeFill(f)
  {
  }

  /** Whatever the lines of an object look like, only repaired values are read. */
  lemma ObjectIsRepaired(c: char, line: string, rest: seq<string>, load: Loaders)
    requires IsObjectType(c)
    ensures
      var p := ReadObject(c, line, rest, load);
      p.Parsed? && p.data.Some? ==> IsRepaired(p.data.value)
  {
    hide Sscanf, NormalizeLine, NormalizeFill, ReadPixmap, TakeText, StartsWithEmbedded;
    NormalizedTwice();
  }

  ghost predicate HasValidStyles(d: Data<Symbol, Pixmap>) {
    match d
    case ArcData(a) => LineIsValid(a.line)
    case BoxData(b) => LineIsValid(b.line) && FillIsValid(b.fill)
    case CircleData(c) => LineIsValid(c.line) && FillIsValid(c.fill)
    case LineData(l) => LineIsValid(l.line)
    case PathData(p) => LineIsValid(p.line) && FillIsValid(p.fill)
    case TextData(t) => t.textSize >= 0 && t.showNameValue in {0, 1, 2}
    case _ => true
  }

  /** After this, only styles, sizes of texts and their display of names can be
      invalid, which raises an exception. */
  lemma RepairedIsValidExactlyIf(d: Data<Symbol, Pixmap>)
    requires IsRepaired(d)
    ensures DataIsValid(d) <==> HasValidStyles(d)
  {
  }

  /** Mirror flags and flags of pins are only set by a one; texts are visible and
      components selectable unless there is a zero. */
  lemma FlagsAreRead(line: string, rest: seq<string>, load: Loaders)
    ensures
      var r, p := Sscanf(line, [C] + Ints(5) + [S]), ReadComplex(line, rest, load);
      p.Parsed? && p.data.Some? ==>
        && r.Some? && p.data.value.ComponentData?
        && (p.data.value.component.selectable <==> r.value[3].n != 0)
        && (p.data.value.component.mirror <==> r.value[5].n == 1)
    ensures
      var r, p := Sscanf(line, [C] + Ints(7)), ReadPicture(line, rest, load);
      p.Parsed? && p.data.Some? ==>
        r.Some? && p.data.value.PictureData? && (p.data.value.picture.mirror <==> r.value[6].n == 1)
    ensures
      var r, p := Sscanf(line, [C] + Ints(7)), ReadPin(line);
      p.Some? ==>
        && r.Some? && p.value.NetData? && p.value.net.isPin
        && (p.value.net.isBus <==> r.value[6].n == 1) && (p.value.net.isInverted <==> r.value[7].n == 1)
    ensures
      var r, p := Sscanf(line, [C] + Ints(9)), ReadText(line, rest);
      p.Parsed? && p.data.Some? ==> r.Some? && (p.data.value.visibility <==> r.value[5].n != 0)
  {
    hide Sscanf, ReadPixmap, TakeText, StartsWithEmbedded;
  }

  /** A pixmap is embedded exactly if the flag is a one. */
  lemma EmbeddedExactlyIf(line: string, rest: seq<string>, load: Loaders)
    ensures
      var r, p := Sscanf(line, [C] + Ints(7)), ReadPicture(line, rest, load);
      p.Parsed? && p.data.Some? ==>
        r.Some? && p.data.value.PictureData? && (p.data.value.picture.pixmap.embedded <==> r.value[7].n == 1)
  {
    hide Sscanf, Base64Decoding.Decoding;
  }

  // Lines of fields

  /** The characters which separate fields, by their numbers. */
  lemma SpacesExactlyIf(c: char)
    ensures IsSpace(c) <==> c as int in {
      0x09, 0x0a, 0x0b, 0x0c, 0x0d, 0x1c, 0x1d, 0x1e, 0x1f, 0x20, 0x85, 0xa0, 0x1680, 0x180e,
      0x2000, 0x2001, 0x2002, 0x2003, 0x2004, 0x2005, 0x2006, 0x2007, 0x2008, 0x2009, 0x200a,
      0x2028, 0x2029, 0x202f, 0x205f, 0x3000}
  {
  }

  /** An integer may have a sign and zeros in front, but nothing but digits. */
  lemma IntegersExactlyIf(s: string, n: int)
    ensures ParseInt(s) == Some(n) <==>
      exists sign, digits :: IsInteger(s, sign, digits, n)
  {
    if ParseInt(s) == Some(n) {
      if s[0] == '-' || s[0] == '+' {
        assert s == [s[0]] + s[1..];
        assert IsInteger(s, s[..1], s[1..], n);
      } else {
        assert s == "" + s;
        assert IsInteger(s, "", s, n);
      }
    }
    if sign, digits :| IsInteger(s, sign, digits, n) {
      if sign == "" {
        assert s == digits && digits[0] in digits;
      } else {
        assert s[1..] == digits;
      }
    }
  }

  ghost predicate IsInteger(s: string, sign: string, digits: string, n: int) {
    && s == sign + digits && sign in {"", "+", "-"} && digits != "" && AreDigits(digits)
    && n == if sign == "-" then 0 - ValueOf(digits) else ValueOf(digits)
  }

  /** Fields which follow are ignored. */
  lemma MoreFieldsAreIgnored(fields: seq<Field>, more: seq<Field>, convs: seq<Conversion>, others: seq<Conversion>)
    requires |fields| == |convs| > 0 && forall i :: 0 <= i < |fields| ==> Fits(fields[i], convs[i])
    requires |more| == |others| && forall i :: 0 <= i < |more| ==> Fits(more[i], others[i])
    ensures Sscanf(FieldLine(fields + more), convs) == Some(fields)
  {
    var words := FormatFields(fields + more);
    FieldsReturn(fields + more, convs + others);
    FieldsReturn(fields, convs);
    assert words[..|fields|] == FormatFields(fields);
    WordsAreScanned(words, convs);
  }

  /** A line of words is read by its first words. */
  lemma WordsAreScanned(words: seq<string>, convs: seq<Conversion>)
    requires words != [] && forall w :: w in words ==> IsWord(w)
    ensures Sscanf(Join(words) + "\n", convs) ==
      if |words| < |convs| then None else ParseFields(words[..|convs|], convs)
  {
    hide ParseFields, Split, IsSpace, Join;
    SplitJoined(words);
    JoinedChars(words);
    var t := Join(words);
    assert t[|t| - 1] in t;
    assert words[0] in words && words[0] != "" && words[0][0] == t[0];
    assert (t + "\n")[..|t + "\n"| - 1] == t;
  }

  /** There must not be white space in front of the first field. */
  lemma LeadingSpaceIsRefused(line: string, convs: seq<Conversion>)
    requires line != "" && IsSpace(line[0]) && convs != []
    ensures Sscanf(line, convs) == None
  {
    hide ParseFields, IsSpace;
    if line[|line| - 1] == '\n' {
      var t := line[..|line| - 1];
      WordsStartWell(t);
      SplitNone();
    }
  }

  /** There must be a line end, and only one. */
  lemma LineEndIsNeeded(line: string, convs: seq<Conversion>)
    requires line == "" || line[|line| - 1] != '\n' || (|line| > 1 && line[|line| - 2] == '\n')
    ensures Sscanf(line, convs) == None
  {
    hide ParseFields, Split;
  }

  lemma SplitNone()
    ensures Split("") == []
  {
  }

  lemma {:induction false} WordsStartWell(t: string)
    ensures forall w :: w in Split(t) ==> w != "" && !IsSpace(w[0])
    decreases |t|
  {
    hide IsSpace;
    if t != "" {
      if IsSpace(t[0]) {
        WordsStartWell(t[1..]);
      } else {
        WordsStartWell(t[WordEnd(t)..]);
      }
    }
  }

  // Texts and paths which aren't complete

  /** An error is reported exactly if a text announces no lines or more than there
      are, and only then has it got another number of lines. */
  lemma TextErrorsExactlyIf(line: string, rest: seq<string>)
    ensures
      var r, p := Sscanf(line, [C] + Ints(9)), ReadText(line, rest);
      && p.Parsed?
      && (r.None? ==> p.data.None? && p.errors == 1 && p.rest == rest)
      && (r.Some? ==>
            && p.data.Some?
            && (1 <= r.value[9].n <= |rest| ==> p.errors == 0)
            && (r.value[9].n < 1 || r.value[9].n > |rest| ==> p.errors == 1)
            && (r.value[9].n > |rest| ==> p.rest == [] && p.data.value.text == WithoutNewline(Concat(rest)))
            && (r.value[9].n < 1 ==> p.rest == rest && p.data.value.text == ""))
  {
    hide Sscanf, Concat;
    assert rest[..|rest|] == rest;
    assert Concat([]) == "" by {
      NothingToConcat();
    }
  }

  lemma NothingToConcat()
    ensures Concat([]) == ""
  {
  }

  /** A path may have no lines. */
  lemma PathErrorsExactlyIf(line: string, rest: seq<string>)
    ensures
      var r, p := Sscanf(line, [C] + Ints(13)), ReadPath(line, rest);
      && p.Parsed?
      && (r.None? ==> p.data.None? && p.errors == 1 && p.rest == rest)
      && (r.Some? ==>
            && p.data.Some?
            && (r.value[13].n <= |rest| ==> p.errors == 0)
            && (r.value[13].n <= 0 ==> p.rest == rest && p.data.value.PathData? && p.data.value.path.pathdata == "")
            && (r.value[13].n > |rest| ==>
                  && p.errors == 1 && p.rest == []
                  && p.data.value.PathData? && p.data.value.path.pathdata == WithoutNewline(Concat(rest))))
  {
    hide Sscanf, Concat, LineOf, FillOf;
    assert rest[..|rest|] == rest;
    NothingToConcat();
  }

  // Attributes

  /** What an attribute is: a name and a value with an equals sign between them,
      which has no spaces next to it and is the first one. */
  ghost predicate IsAttribute(s: string, name: string, value: string) {
    && s == name + "=" + value && '=' !in name
    && name != "" && value != "" && name[|name| - 1] != ' ' && value[0] != ' '
  }

  lemma {:induction false} FirstEquals(s: string)
    ensures '=' !in s[..IndexOfEquals(s)]
    ensures IndexOfEquals(s) < |s| ==> s[IndexOfEquals(s)] == '='
  {
    if s != "" && s[0] != '=' {
      FirstEquals(s[1..]);
      assert s[..IndexOfEquals(s)] == [s[0]] + s[1..][..IndexOfEquals(s[1..])];
    }
  }

  lemma AttributeNameExactlyIf(s: string, name: string)
    ensures AttributeName(s) == Some(name) <==> exists value :: IsAttribute(s, name, value)
  {
    var n := IndexOfEquals(s);
    FirstEquals(s);
    if AttributeName(s) == Some(name) {
      assert s == name + "=" + s[n + 1..];
      assert IsAttribute(s, name, s[n + 1..]);
    }
    if value :| IsAttribute(s, name, value) {
      EqualsIsAt(name, value);
      assert s[..n] == name && s[n - 1] == name[|name| - 1] && s[n + 1] == value[0];
    }
  }

  lemma {:induction false} EqualsIsAt(name: string, value: string)
    requires '=' !in name
    ensures IndexOfEquals(name + "=" + value) == |name|
  {
    if name != "" {
      EqualsIsAt(name[1..], value);
      assert (name + "=" + value)[1..] == name[1..] + "=" + value;
    }
  }

  /** The last attribute of a name determines the visibility. */
  lemma {:induction false} LastVisibilityCounts(texts: seq<Text>, name: string, isVisible: bool)
    ensures VisibilityOf(texts, name) == Some(isVisible) <==> exists k :: IsLastVisibility(texts, name, k, isVisible)
    ensures VisibilityOf(texts, name) == None <==>
      forall i :: 0 <= i < |texts| ==> AttributeName(texts[i].text) != Some(name)
  {
    hide AttributeName;
    if texts != [] {
      var n := |texts| - 1;
      LastVisibilityCounts(texts[..n], name, isVisible);
      assert forall i :: 0 <= i < n ==> texts[..n][i] == texts[i];
      if AttributeName(texts[n].text) == Some(name) {
        assert IsLastVisibility(texts, name, n, texts[n].visibility);
      } else {
        forall k
          ensures IsLastVisibility(texts, name, k, isVisible) <==> IsLastVisibility(texts[..n], name, k, isVisible)
        {
        }
      }
    }
  }

  ghost predicate IsLastVisibility(texts: seq<Text>, name: string, k: int, isVisible: bool) {
    && 0 <= k < |texts| && AttributeName(texts[k].text) == Some(name) && texts[k].visibility == isVisible
    && forall i :: k < i < |texts| ==> AttributeName(texts[i].text) != Some(name)
  }
}
