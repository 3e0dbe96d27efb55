/** Names of elements and attributes. */
module XmlNames {
  /** Characters which may appear inside a name. */
  predicate IsAccepted(c: char) {
    || c == '-' || c == '.' || '0' <= c <= '9' || c == ':'
    || 'A' <= c <= 'Z' || c == '_' || 'a' <= c <= 'z'
    || '\U{c0}' <= c <= '\U{d6}' || '\U{d8}' <= c <= '\U{f6}' || '\U{f8}' <= c <= '\U{2ff}'
    || '\U{300}' <= c <= '\U{36f}' || '\U{370}' <= c <= '\U{37d}' || '\U{37f}' <= c <= '\U{1fff}'
    || '\U{200c}' <= c <= '\U{200d}' || '\U{203f}' <= c <= '\U{2040}' || '\U{2070}' <= c <= '\U{218f}'
    || '\U{2c00}' <= c <= '\U{2fef}' || '\U{3001}' <= c <= '\U{d7ff}'
    || '\U{f900}' <= c <= '\U{fdcf}' || '\U{fdf0}' <= c <= '\U{fffd}'
  }

  /** Names which the writer accepts.  (In Python 2, a character is greater than
      each integer and equal to none, so the middle dot is never accepted, and a
      combining character is accepted as the first one.) */
  predicate ValidName(name: string) {
    && name != ""
    && name[0] != '-' && name[0] != '.' && !('0' <= name[0] <= '9')
    && forall c :: c in name ==> IsAccepted(c)
  }

  // Names as defined in section 2.3 of XML 1.0

  predicate IsNameStart(c: char) {
    || c == ':' || 'A' <= c <= 'Z' || c == '_' || 'a' <= c <= 'z'
    || '\U{c0}' <= c <= '\U{d6}' || '\U{d8}' <= c <= '\U{f6}' || '\U{f8}' <= c <= '\U{2ff}'
    || '\U{370}' <= c <= '\U{37d}' || '\U{37f}' <= c <= '\U{1fff}'
    || '\U{200c}' <= c <= '\U{200d}' || '\U{2070}' <= c <= '\U{218f}'
    || '\U{2c00}' <= c <= '\U{2fef}' || '\U{3001}' <= c <= '\U{d7ff}'
    || '\U{f900}' <= c <= '\U{fdcf}' || '\U{fdf0}' <= c <= '\U{fffd}'
    || '\U{10000}' <= c <= '\U{effff}'
  }

  predicate IsNameChar(c: char) {
    || IsNameStart(c) || c == '-' || c == '.' || '0' <= c <= '9' || c == '\U{b7}'
    || '\U{300}' <= c <= '\U{36f}' || '\U{203f}' <= c <= '\U{2040}'
  }

  predicate IsName(name: string) {
    && name != "" && IsNameStart(name[0])
    && forall c :: c in name ==> IsNameChar(c)
  }

  /** Characters which the writer takes for the start of a name although they
      may only appear inside a name. */
  predicate IsCombining(c: char) {
    '\U{300}' <= c <= '\U{36f}' || '\U{203f}' <= c <= '\U{2040}'
  }

  /** A name which has been accepted is a name in the sense of the standard
      exactly if it doesn't begin with a combining character. */
  lemma AcceptedIsNameExactlyIf(name: string)
    requires ValidName(name)
    ensures IsName(name) <==> !IsCombining(name[0])
    ensures forall c :: c in name ==> IsNameChar(c)
  {
    assert name[0] in name;
  }

  /** A combining character on its own is accepted but isn't a name. */
  lemma CombiningIsAccepted()
    ensures ValidName("\U{301}") && !IsName("\U{301}")
  {
    assert "\U{301}"[0] == '\U{301}';
  }

  /** All other names are accepted unless they contain a middle dot or a
      character outside of the basic plane. */
  lemma NameIsAcceptedExactlyIf(name: string)
    requires IsName(name)
    ensures ValidName(name) <==> forall c :: c in name ==> c != '\U{b7}' && c < '\U{10000}'
  {
    assert name[0] in name;
  }

  /** The characters which the writer refuses, in the order of their numbers. */
  lemma RefusedExactlyIf(c: char)
    ensures !IsAccepted(c) <==>
      || c <= ',' || c == '/' || ';' <= c <= '@' || '[' <= c <= '^' || c == '`' || '{' <= c <= '\U{bf}'
      || c == '\U{d7}' || c == '\U{f7}' || c == '\U{37e}'
      || '\U{2000}' <= c <= '\U{200b}' || '\U{200e}' <= c <= '\U{203e}' || '\U{2041}' <= c <= '\U{206f}'
      || '\U{2190}' <= c <= '\U{2bff}' || '\U{2ff0}' <= c <= '\U{3000}' || '\U{e000}' <= c <= '\U{f8ff}'
      || '\U{fdd0}' <= c <= '\U{fdef}' || '\U{fffe}' <= c
  {
  }

  /** The first character must neither be a hyphen, a point nor a digit. */
  lemma FirstIsRefused(name: string)
    requires name != "" && forall c :: c in name ==> IsAccepted(c)
    ensures ValidName(name) <==> name[0] !in "-.0123456789"
  {
  }
}
