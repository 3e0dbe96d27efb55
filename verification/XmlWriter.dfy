/** Writing XML documents in a stream-like fashion. */
module XmlWriter {
  import opened Wrappers
  import opened Sequences
  import opened XmlNames
  import opened XmlReader
  import opened XmlEscape
  import opened XmlFormatting

  datatype Phase = Idle | CharacterData | StartTag

  /** What the writer keeps track of, and the text written so far. */
  datatype State = State(
    text: string,
    isInitialized: bool,
    hasRoot: bool,
    stack: seq<string>,
    preserveDepth: Option<nat>,
    phase: Phase,
    keys: set<string>)

  const FRESH := State("", false, false, [], None, Idle, {})

  predicate IsDone(w: State) {
    w.hasRoot && w.stack == []
  }

  function Indentation(n: nat): (s: string)
    ensures forall c :: c in s ==> c == ' '
  {
    seq(2 * n, _ => ' ')
  }

  /** Write some text. */
  function With(w: State, s: string): State {
    w.(text := w.text + s)
  }

  /** Write the XML declaration first. */
  function Initialized(w: State): State {
    if w.isInitialized then w else With(w, DECLARATION + "\n").(isInitialized := true)
  }

  /** Write the end of a start tag. */
  function TagFinished(w: State): State {
    if !w.phase.StartTag? then w
    else With(w, if w.preserveDepth.None? then ">\n" else ">").(keys := {}, phase := Idle)
  }

  function Prepared(w: State): State {
    TagFinished(Initialized(w))
  }

  /** White space for formatting, unless it has to be preserved. */
  function Layout(w: State, onNewLine: bool, depth: nat): (s: string)
    ensures forall c :: c in s ==> c == ' ' || c == '\n'
    ensures w.preserveDepth.Some? ==> s == ""
  {
    if w.preserveDepth.Some? then ""
    else (if onNewLine then "\n" else "") + Indentation(depth)
  }

  function Rooted(w: State): State {
    if w.stack == [] then w.(hasRoot := true) else w
  }

  function Started(w: State, name: string, preserve: bool): Option<State> {
    if !ValidName(name) || (w.stack == [] && w.hasRoot) then None
    else
      var p := Prepared(Rooted(w));
      Some(Pushed(With(With(p, Layout(p, p.phase.CharacterData?, |p.stack|)), "<" + name), name, preserve))
  }

  function Pushed(w: State, name: string, preserve: bool): State {
    w.(preserveDepth := if preserve && w.preserveDepth.None? then Some(|w.stack|) else w.preserveDepth,
       stack := w.stack + [name], phase := StartTag)
  }

  function Ended(w: State): Option<State> {
    if w.stack == [] then None
    else
      var n := |w.stack| - 1;
      var t := if w.phase.StartTag? then With(w, "/>")
               else With(With(w, Layout(w, w.phase.CharacterData?, n)), "</" + w.stack[n] + ">");
      Some(Popped(t))
  }

  function Popped(w: State): State
    requires w.stack != []
  {
    var n := |w.stack| - 1;
    var depth := if w.preserveDepth == Some(n) then None else w.preserveDepth;
    With(w, if depth.None? then "\n" else "").(stack := w.stack[..n], preserveDepth := depth, phase := Idle, keys := {})
  }

  function WithAttribute(w: State, name: string, value: string): Option<State> {
    if !w.phase.StartTag? || !ValidName(name) || '\n' in value || name in w.keys then None
    else Some(With(w, " " + name + "=\"" + Escape(value) + "\"").(keys := w.keys + {name}))
  }

  function WithData(w: State, data: string): Option<State> {
    if w.stack == [] then None
    else
      var p := Prepared(w);
      Some(With(With(p, if p.phase.Idle? then Layout(p, false, |p.stack|) else ""), data).(phase := CharacterData))
  }

  /** The effect of a call; nothing for a call which isn't permitted. */
  function Apply(w: State, call: Call): Option<State> {
    match call
    case StartElement(name, preserve) => Started(w, name, preserve)
    case EndElement => Ended(w)
    case WriteAttribute(name, value) => WithAttribute(w, name, value)
    case WriteCharacterData(data) => WithData(w, Escape(data))
    case WriteCdataSection(data) => WithData(w, "<![CDATA[" + SplitSections(data) + "]]>")
  }

  /** The state of the writer and the document after some calls.  A call which
      isn't permitted has no effect. */
  function Run(calls: seq<Call>): (State, Document) {
    if calls == [] then (FRESH, Document([], []))
    else
      var n := |calls| - 1;
      var (w, doc) := Run(calls[..n]);
      var next := Apply(w, calls[n]);
      if next.None? then (w, doc) else (next.value, Recorded(doc, calls[n]))
  }

  /** Writes a document to a string. */
  class XMLWriter {
    var text: string
    var isInitialized: bool
    var hasRootElement: bool
    var stack: seq<string>
    var preserveDepth: Option<nat>
    var state: Phase
    var currentAttrs: set<string>

    ghost function Current(): State
      reads this
    {
      State(text, isInitialized, hasRootElement, stack, preserveDepth, state, currentAttrs)
    }

    /** The writer has gone to the next state if there is one, and otherwise is
        in the same state as before. */
    twostate predicate Became(next: Option<State>, ok: bool)
      reads this
    {
      && ok == next.Some?
      && Current() == if next.Some? then next.value else old(Current())
    }

    constructor ()
      ensures Current() == FRESH
    {
      text := "";
      isInitialized := false;
      hasRootElement := false;
      stack := [];
      preserveDepth := None;
      state := Idle;
      currentAttrs := {};
    }

    method IsComplete() returns (done: bool)
      ensures done == IsDone(Current())
    {
      done := hasRootElement && stack == [];
    }

    method Write(data: string)
      modifies this`text
      ensures text == old(text) + data
    {
      text := text + data;
    }

    method PrepareForData()
      modifies this
      ensures Current() == Prepared(old(Current()))
    {
      if !isInitialized {
        Write(DECLARATION + "\n");
        isInitialized := true;
      }
      if state == StartTag {
        Write(">");
        if preserveDepth.None? {
          assert text + "\n" == text[..|text| - 1] + ">\n";
          Write("\n");
        }
        currentAttrs := {};
        state := Idle;
      }
    }

    /** White space for formatting, if permitted here. */
    method WriteLayout(depth: nat)
      modifies this`text
      ensures Current() == With(old(Current()), Layout(old(Current()), state.CharacterData?, depth))
    {
      ghost var before := text;
      assert before + "" == before;
      if preserveDepth.None? {
        if state == CharacterData {
          Write("\n");
        }
        Write(Indentation(depth));
        Associative(before, "\n", Indentation(depth));
        assert "" + Indentation(depth) == Indentation(depth);
      }
    }

    /** Begin an element; refused if the name isn't valid or for a second root
        element. */
    method Start(name: string, preserveWhitespace: bool) returns (ok: bool)
      modifies this
      ensures Became(Started(old(Current()), name, preserveWhitespace), ok)
      ensures ok <==> ValidName(name) && (old(stack) != [] || !old(hasRootElement))
    {
      hide ValidName, Prepared, Layout;
      if !ValidName(name) {
        return false;
      }
      if stack == [] {
        if hasRootElement {
          return false;
        }
        hasRootElement := true;
      }
      PrepareForData();
      WriteLayout(|stack|);
      Write("<" + name);
      if preserveWhitespace && preserveDepth.None? {
        preserveDepth := Some(|stack|);
      }
      stack := stack + [name];
      state := StartTag;
      ok := true;
    }

    /** End the innermost element; refused outside of the root element. */
    method End() returns (ok: bool)
      modifies this
      ensures Became(Ended(old(Current())), ok)
      ensures ok <==> old(stack) != []
    {
      hide Layout;
      if stack == [] {
        return false;
      }
      var n := |stack| - 1;
      if state == StartTag {
        Write("/>");
      } else {
        WriteLayout(n);
        Write("</" + stack[n] + ">");
      }
      ghost var before := Current();
      state := Idle;
      stack := stack[..n];
      if preserveDepth == Some(n) {
        preserveDepth := None;
      }
      assert text + "" == text;
      if preserveDepth.None? {
        Write("\n");
      }
      currentAttrs := {};
      assert Current() == Popped(before);
      ok := true;
    }

    /** Add an attribute to the element which has just been started; refused if
        it already has got one of that name. */
    method AddAttribute(name: string, value: string) returns (ok: bool)
      modifies this
      ensures Became(WithAttribute(old(Current()), name, value), ok)
      ensures ok <==>
        old(state).StartTag? && ValidName(name) && '\n' !in value && name !in old(currentAttrs)
    {
      hide ValidName, Escape;
      if state != StartTag || !ValidName(name) || '\n' in value || name in currentAttrs {
        return false;
      }
      currentAttrs := currentAttrs + {name};
      Write(" " + name + "=\"" + Escape(value) + "\"");
      ok := true;
    }

    /** Get to the point where data can be written. */
    method BeginData()
      requires stack != []
      modifies this
      ensures
        var p := Prepared(old(Current()));
        Current() == With(p, if p.phase.Idle? then Layout(p, false, |p.stack|) else "").(phase := CharacterData)
    {
      hide Prepared;
      PrepareForData();
      assert text + "" == text;
      if state == Idle {
        WriteLayout(|stack|);
      }
      state := CharacterData;
    }

    /** Write character data; refused outside of the root element. */
    method AddCharacterData(data: string) returns (ok: bool)
      modifies this
      ensures Became(WithData(old(Current()), Escape(data)), ok)
      ensures ok <==> old(stack) != []
    {
      hide Prepared, Layout, Escape;
      if stack == [] {
        return false;
      }
      BeginData();
      Write(Escape(data));
      ok := true;
    }

    /** Write a CDATA section; refused outside of the root element. */
    method AddCdataSection(data: string) returns (ok: bool)
      modifies this
      ensures Became(WithData(old(Current()), "<![CDATA[" + SplitSections(data) + "]]>"), ok)
      ensures ok <==> old(stack) != []
    {
      hide Prepared, Layout, SplitSections;
      if stack == [] {
        return false;
      }
      BeginData();
      ghost var before := text;
      Write("<![CDATA[");
      Write(SplitSections(data));
      Write("]]>");
      Associative(before, "<![CDATA[", SplitSections(data));
      Associative(before, "<![CDATA[" + SplitSections(data), "]]>");
      ok := true;
    }

    method Perform(call: Call) returns (ok: bool)
      modifies this
      ensures Became(Apply(old(Current()), call), ok)
    {
      hide Started, Ended, WithAttribute, WithData;
      match call
      case StartElement(name, preserve) => ok := Start(name, preserve);
      case EndElement => ok := End();
      case WriteAttribute(name, value) => ok := AddAttribute(name, value);
      case WriteCharacterData(data) => ok := AddCharacterData(data);
      case WriteCdataSection(data) => ok := AddCdataSection(data);
    }
  }

  /** Perform some calls on a new writer. */
  method WriteDocument(calls: seq<Call>) returns (text: string, done: bool)
    ensures text == Run(calls).0.text && done == IsDone(Run(calls).0)
  {
    hide Apply, Recorded;
    var writer := new XMLWriter();
    for i := 0 to |calls|
      invariant fresh(writer) && writer.Current() == Run(calls[..i]).0
    {
      assert calls[..i + 1][..i] == calls[..i];
      var _ := writer.Perform(calls[i]);
    }
    assert calls[..|calls|] == calls;
    done := writer.IsComplete();
    text := writer.text;
  }
}
