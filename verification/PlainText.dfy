/** Lines of space-separated values. */
module PlainText {
  import opened Wrappers
  import opened Sequences
  import opened Streams
  import opened Decimals

  // Words

  /** Whitespace in the sense of Unicode. */
  predicate IsSpace(c: char) {
    || '\U{0009}' <= c <= '\U{000d}' || '\U{001c}' <= c <= '\U{0020}'
    || c == '\U{0085}' || c == '\U{00a0}' || c == '\U{1680}' || c == '\U{180e}'
    || '\U{2000}' <= c <= '\U{200a}' || c == '\U{2028}' || c == '\U{2029}'
    || c == '\U{202f}' || c == '\U{205f}' || c == '\U{3000}'
  }

  predicate IsWord(s: string) {
    s != "" && forall c :: c in s ==> !IsSpace(c)
  }

  function WordEnd(s: string): (n: nat)
    ensures n <= |s|
    ensures s != "" && !IsSpace(s[0]) ==> n > 0
  {
    if s == "" || IsSpace(s[0]) then 0 else 1 + WordEnd(s[1..])
  }

  /** The words of a string, which are separated by any amount of whitespace. */
  function Split(s: string): (words: seq<string>)
    ensures forall i :: 0 <= i < |words| ==> words[i] != ""
    ensures words != [] ==> s != ""
    decreases |s|
  {
    if s == "" then []
    else if IsSpace(s[0]) then Split(s[1..])
    else [s[..WordEnd(s)]] + Split(s[WordEnd(s)..])
  }

  /** Some words with a space between them. */
  function Join(words: seq<string>): string {
    if words == [] then ""
    else if |words| == 1 then words[0]
    else words[0] + " " + Join(words[1..])
  }

  lemma {:induction false} WordEndOfWord(w: string, rest: string)
    requires IsWord(w) && (rest == "" || IsSpace(rest[0]))
    ensures WordEnd(w + rest) == |w|
  {
    var s := w + rest;
    assert s[0] == w[0] && w[0] in w;
    assert s[1..] == w[1..] + rest;
    if |w| > 1 {
      assert forall c :: c in w[1..] ==> c in w;
      WordEndOfWord(w[1..], rest);
    } else {
      assert s[1..] == rest;
    }
  }

  lemma SplitWord(w: string, rest: string)
    requires IsWord(w) && (rest == "" || IsSpace(rest[0]))
    ensures Split(w + rest) == [w] + Split(rest)
  {
    WordEndOfWord(w, rest);
    assert (w + rest)[0] == w[0] && w[0] in w;
    assert (w + rest)[..|w|] == w && (w + rest)[|w|..] == rest;
  }

  lemma {:induction false} SplitJoined(words: seq<string>)
    requires forall w :: w in words ==> IsWord(w)
    ensures Split(Join(words)) == words
  {
    if words == [] {
    } else if |words| == 1 {
      assert words[0] in words && words[0] + "" == words[0];
      SplitWord(words[0], "");
      assert words == [words[0]];
    } else {
      assert words[0] in words;
      var rest := " " + Join(words[1..]);
      assert Join(words) == words[0] + rest by {
        Associative(words[0], " ", Join(words[1..]));
      }
      SplitWord(words[0], rest);
      assert rest[1..] == Join(words[1..]);
      SplitJoined(words[1..]);
      assert words == [words[0]] + words[1..];
    }
  }

  lemma {:induction false} JoinedChars(words: seq<string>)
    requires forall w :: w in words ==> IsWord(w)
    ensures forall c :: c in Join(words) ==> c != '\n' && c != '\r'
    ensures words != [] ==> Join(words) != "" && words[0] <= Join(words)
  {
    assert IsSpace('\n') && IsSpace('\r');
    if |words| >= 1 {
      assert words[0] in words;
      if |words| > 1 {
        JoinedChars(words[1..]);
      }
    }
  }

  // Fields

  datatype Field = Chr(c: char) | Int(n: int) | Str(s: string)

  datatype Conversion = C | D | U | S

  function FormatField(f: Field): string {
    match f
    case Chr(c) => [c]
    case Int(n) => FormatInt(n)
    case Str(s) => s
  }

  function FormatFields(fields: seq<Field>): (words: seq<string>)
    ensures |words| == |fields|
    ensures forall i :: 0 <= i < |fields| ==> words[i] == FormatField(fields[i])
  {
    if fields == [] then [] else [FormatField(fields[0])] + FormatFields(fields[1..])
  }

  /** A line with some fields. */
  function FieldLine(fields: seq<Field>): string {
    Join(FormatFields(fields)) + "\n"
  }

  function ParseField(s: string, conv: Conversion): Option<Field> {
    match conv
    case C => if |s| == 1 then Some(Chr(s[0])) else None
    case D => if ParseInt(s).Some? then Some(Int(ParseInt(s).value)) else None
    case U => if ParseInt(s).Some? && ParseInt(s).value >= 0 then Some(Int(ParseInt(s).value)) else None
    case S => Some(Str(s))
  }

  function ParseFields(words: seq<string>, convs: seq<Conversion>): (r: Option<seq<Field>>)
    requires |words| == |convs|
    ensures r.Some? ==> |r.value| == |convs|
    ensures r.Some? ==> forall i :: 0 <= i < |convs| ==> IsOfKind(r.value[i], convs[i])
  {
    if words == [] then Some([])
    else
      var f, rest := ParseField(words[0], convs[0]), ParseFields(words[1..], convs[1..]);
      if f.Some? && rest.Some? then Some([f.value] + rest.value) else None
  }

  predicate IsOfKind(f: Field, conv: Conversion) {
    match conv
    case C => f.Chr?
    case D => f.Int?
    case U => f.Int?
    case S => f.Str?
  }

  /** Parse a line of fields.  There must be no whitespace before the first
      field; excess fields are ignored. */
  function Sscanf(s: string, convs: seq<Conversion>): (r: Option<seq<Field>>)
    ensures r.Some? ==> |r.value| == |convs|
    ensures r.Some? ==> forall i :: 0 <= i < |convs| ==> IsOfKind(r.value[i], convs[i])
  {
    if s == "" || s[|s| - 1] != '\n' then None
    else
      var t := s[..|s| - 1];
      if t != "" && t[|t| - 1] == '\n' then None
      else
        var words := Split(t);
        if words != [] && words[0][0] != t[0] then None
        else if |words| < |convs| then None
        else ParseFields(words[..|convs|], convs)
  }

  /** Whether a field can be written so that it is read with a certain
      conversion. */
  predicate Fits(f: Field, conv: Conversion) {
    match conv
    case C => f.Chr? && !IsSpace(f.c)
    case D => f.Int?
    case U => f.Int? && f.n >= 0
    case S => f.Str? && IsWord(f.s)
  }

  lemma FieldReturns(f: Field, conv: Conversion)
    requires Fits(f, conv)
    ensures IsWord(FormatField(f))
    ensures ParseField(FormatField(f), conv) == Some(f)
  {
    if f.Int? {
      ParseFormatted(f.n);
      FormattedChars(f.n);
    }
  }

  lemma {:induction false} FieldsReturn(fields: seq<Field>, convs: seq<Conversion>)
    requires |fields| == |convs| && forall i :: 0 <= i < |fields| ==> Fits(fields[i], convs[i])
    ensures forall w :: w in FormatFields(fields) ==> IsWord(w)
    ensures ParseFields(FormatFields(fields), convs) == Some(fields)
  {
    hide ParseField, FormatField, Fits, IsWord;
    if fields != [] {
      FieldReturns(fields[0], convs[0]);
      assert forall i :: 0 <= i < |fields[1..]| ==> Fits(fields[1..][i], convs[1..][i]);
      FieldsReturn(fields[1..], convs[1..]);
      assert FormatFields(fields)[1..] == FormatFields(fields[1..]);
      assert fields == [fields[0]] + fields[1..];
    }
  }

  /** Reading a line of fields gives the fields which have been written. */
  lemma LineReturns(fields: seq<Field>, convs: seq<Conversion>)
    requires |fields| == |convs| > 0 && forall i :: 0 <= i < |fields| ==> Fits(fields[i], convs[i])
    ensures Sscanf(FieldLine(fields), convs) == Some(fields)
    ensures IsLine(FieldLine(fields)) && FormatField(fields[0]) <= FieldLine(fields)
    ensures '\r' !in FieldLine(fields)
  {
    var words := FormatFields(fields);
    FieldsReturn(fields, convs);
    hide FormatFields, ParseFields, Join, Split, Fits, IsWord, IsSpace, Sscanf;
    JoinedChars(words);
    JoinedIsLine(words);
    ScanJoined(words, convs);
  }

  lemma JoinedIsLine(words: seq<string>)
    requires words != [] && words[0] <= Join(words)
    requires forall c :: c in Join(words) ==> c != '\n'
    ensures IsLine(Join(words) + "\n") && words[0] <= Join(words) + "\n"
  {
    hide Join;
    var s := Join(words) + "\n";
    forall i | 0 <= i < |s| - 1
      ensures s[i] != '\n'
    {
      assert s[i] == Join(words)[i] && s[i] in Join(words);
    }
  }

  lemma ScanJoined(words: seq<string>, convs: seq<Conversion>)
    requires |words| == |convs| > 0 && forall w :: w in words ==> IsWord(w)
    ensures Sscanf(Join(words) + "\n", convs) == ParseFields(words, convs)
  {
    hide ParseFields, Split, IsSpace, Join, Sscanf;
    SplitJoined(words);
    JoinedChars(words);
    var t := Join(words);
    assert t[|t| - 1] in t;
    assert words[0] in words && words[0] != "";
    assert words[0][0] == t[0];
    ScanLine(t, words, convs);
  }

  lemma ScanLine(t: string, words: seq<string>, convs: seq<Conversion>)
    requires Split(t) == words && |words| == |convs| > 0
    requires words[0] != "" && t != "" && words[0][0] == t[0] && t[|t| - 1] != '\n'
    ensures Sscanf(t + "\n", convs) == ParseFields(words, convs)
  {
    hide ParseFields, Split;
    var s := t + "\n";
    assert s[..|s| - 1] == t;
    assert words[..|convs|] == words;
  }
}
