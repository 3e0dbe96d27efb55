/** The base64 representation of binary data (section 6.8 of RFC 2045). */
module Base64 {
  import opened Wrappers
  import opened Streams

  type Byte = x: int | 0 <= x < 256

  // The alphabet: upper-case letters, lower-case letters, digits, + and /

  function Digit(v: nat): char
    requires v < 64
  {
    if v < 26 then 'A' + v as char
    else if v < 52 then 'a' + (v - 26) as char
    else if v < 62 then '0' + (v - 52) as char
    else if v == 62 then '+' else '/'
  }

  const NO_RANK := 255

  /** The value of a character, or NO_RANK. */
  function Rank(c: char): (v: nat)
    ensures v < 64 || v == NO_RANK
  {
    if 'A' <= c <= 'Z' then c as int - 'A' as int
    else if 'a' <= c <= 'z' then c as int - 'a' as int + 26
    else if '0' <= c <= '9' then c as int - '0' as int + 52
    else if c == '+' then 62
    else if c == '/' then 63
    else NO_RANK
  }

  predicate IsBase64(c: char) {
    Rank(c) != NO_RANK
  }

  lemma RankOfDigit(v: nat)
    requires v < 64
    ensures Rank(Digit(v)) == v
    ensures Digit(v) != '=' && Digit(v) != '\n' && Digit(v) as int < 256
  {
  }

  lemma DigitOfRank(c: char)
    requires IsBase64(c)
    ensures Digit(Rank(c)) == c
  {
  }

  /** Bitwise or. */
  function Or(a: nat, b: nat): nat {
    if a == 0 && b == 0 then 0
    else (if a % 2 == 1 || b % 2 == 1 then 1 else 0) + 2 * Or(a / 2, b / 2)
  }

  lemma {:induction false} OrWithNothing(a: nat)
    ensures Or(a, 0) == a && Or(0, a) == a
  {
    if a != 0 {
      OrWithNothing(a / 2);
    }
  }

  lemma OrStep(a: nat, b: nat)
    requires b < 2
    ensures Or(2 * a, b) == 2 * a + b
  {
    OrWithNothing(a);
    assert (2 * a) / 2 == a && b / 2 == 0;
    if a == 0 && b == 0 {
    } else {
      assert Or(2 * a, b) == (if b % 2 == 1 then 1 else 0) + 2 * Or(a, 0);
    }
  }

  lemma OrDoubles(a: nat, b: nat)
    ensures Or(2 * a, b) == b % 2 + 2 * Or(a, b / 2)
  {
    assert (2 * a) / 2 == a;
  }

  lemma OrDisjoint4(a: nat, b: nat)
    requires b < 4
    ensures Or(4 * a, b) == 4 * a + b
  {
    OrDoubles(2 * a, b);
    OrStep(a, b / 2);
    hide Or;
  }

  lemma TwoBits(b: nat)
    ensures b == b % 2 + 2 * ((b / 2) % 2) + 4 * (b / 4)
    ensures b / 2 / 2 == b / 4
  {
  }

  lemma OrDisjoint16(a: nat, b: nat)
    requires b < 16
    ensures Or(16 * a, b) == 16 * a + b
  {
    OrDoubles(8 * a, b);
    OrDoubles(4 * a, b / 2);
    OrDisjoint4(a, b / 4);
    TwoBits(b);
    hide Or;
  }

  lemma OrDisjoint64(a: nat, b: nat)
    requires b < 64
    ensures Or(64 * a, b) == 64 * a + b
  {
    OrDoubles(32 * a, b);
    OrDoubles(16 * a, b / 2);
    OrDisjoint16(a, b / 4);
    TwoBits(b);
    hide Or;
  }

  // Encoding

  /** Three bytes as four characters. */
  function Quad(b0: Byte, b1: Byte, b2: Byte): string {
    [Digit(b0 / 4), Digit((b0 % 4) * 16 + b1 / 16), Digit((b1 % 16) * 4 + b2 / 64), Digit(b2 % 64)]
  }

  /** The encoding of some data, not broken into lines. */
  function EncodeAll(src: seq<Byte>): (s: string)
    ensures |s| % 4 == 0
    ensures s == "" <==> src == []
  {
    if |src| == 0 then ""
    else if |src| == 1 then [Digit(src[0] / 4), Digit((src[0] % 4) * 16), '=', '=']
    else if |src| == 2 then
      [Digit(src[0] / 4), Digit((src[0] % 4) * 16 + src[1] / 16), Digit((src[1] % 16) * 4), '=']
    else Quad(src[0], src[1], src[2]) + EncodeAll(src[3..])
  }

  /** Whether a requested line length is acceptable. */
  predicate IsLineLength(columns: Option<nat>) {
    columns.Some? ==> columns.value > 0 && columns.value % 4 == 0
  }

  /** A text broken into lines of a certain length, only the last of which may
      be shorter. */
  function Wrap(s: string, columns: Option<nat>): seq<string>
    requires columns.Some? ==> columns.value > 0
  {
    if s == "" then []
    else if columns.None? || |s| <= columns.value then [s]
    else [s[..columns.value]] + Wrap(s[columns.value..], columns)
  }

  function Terminate(lines: seq<string>): (r: seq<string>)
    ensures |r| == |lines|
    ensures forall i :: 0 <= i < |r| ==> r[i] == lines[i] + "\n"
  {
    seq(|lines|, i requires 0 <= i < |lines| => lines[i] + "\n")
  }

  /** The lines which are written for some data. */
  function EncodedLines(src: seq<Byte>, columns: Option<nat>, delim: Option<string>): seq<string>
    requires IsLineLength(columns)
  {
    Terminate(Wrap(EncodeAll(src), columns)) + if delim.Some? then [delim.value + "\n"] else []
  }

  lemma {:induction false} WrapIsLossless(s: string, columns: Option<nat>)
    requires columns.Some? ==> columns.value > 0
    ensures Concat(Wrap(s, columns)) == s
  {
    if s == "" {
    } else if columns.None? || |s| <= columns.value {
      assert Concat([s]) == s + "";
    } else {
      var n := columns.value;
      WrapIsLossless(s[n..], columns);
      assert s == s[..n] + s[n..];
      var rest := Wrap(s[n..], columns);
      assert ([s[..n]] + rest)[1..] == rest;
    }
  }

  /** Each data line is non-empty and at most as long as requested, and all
      lines but the last have exactly the requested length. */
  lemma {:induction false} WrapLengths(s: string, columns: Option<nat>, i: nat)
    requires columns.Some? ==> columns.value > 0
    requires i < |Wrap(s, columns)|
    ensures Wrap(s, columns)[i] != ""
    ensures columns.Some? ==> |Wrap(s, columns)[i]| <= columns.value
    ensures i + 1 < |Wrap(s, columns)| ==> columns.Some? && |Wrap(s, columns)[i]| == columns.value
    ensures forall c :: c in Wrap(s, columns)[i] ==> c in s
  {
    if columns.Some? && |s| > columns.value && i > 0 {
      WrapLengths(s[columns.value..], columns, i - 1);
    }
  }

  // What remains to be written while encoding

  function DataText(s: string, columns: Option<nat>): string
    requires columns.Some? ==> columns.value > 0
  {
    Concat(Terminate(Wrap(s, columns)))
  }

  /** The rest of the data if there is room for some more characters in the
      current line. */
  function Rest(s: string, room: nat, columns: Option<nat>): string
    requires columns.Some? ==> columns.value > 0
  {
    if columns.None? || |s| <= room then s + "\n"
    else s[..room] + "\n" + DataText(s[room..], columns)
  }

  lemma RestInFreshLine(s: string, columns: Option<nat>)
    requires columns.Some? ==> columns.value > 0
    requires s != ""
    ensures Rest(s, if columns.Some? then columns.value else 0, columns) == DataText(s, columns)
  {
    var lines := Wrap(s, columns);
    if columns.None? || |s| <= columns.value {
      assert Terminate(lines) == [s + "\n"];
      assert Concat([s + "\n"]) == (s + "\n") + "";
    } else {
      var n := columns.value;
      assert Terminate(lines) == [s[..n] + "\n"] + Terminate(Wrap(s[n..], columns));
      ConcatSplits([s[..n] + "\n"], Terminate(Wrap(s[n..], columns)));
      assert Concat([s[..n] + "\n"]) == (s[..n] + "\n") + "";
    }
  }

  /** Writing four characters, and a newline if the line is full. */
  lemma RestAfterQuad(q: string, s: string, room: nat, columns: Option<nat>)
    requires |q| == 4 && |s| % 4 == 0
    requires columns.Some? ==> columns.value > 0 && room % 4 == 0 && room > 0
    ensures Rest(q + s, room, columns) == q +
      if s == "" then "\n"
      else if columns.None? then Rest(s, 0, columns)
      else if room == 4 then "\n" + Rest(s, columns.value, columns)
      else Rest(s, room - 4, columns)
  {
    if s == "" {
      assert q + s == q;
    } else if columns.None? || |q + s| <= room {
      assert (q + s) + "\n" == q + (s + "\n");
    } else if room == 4 {
      assert (q + s)[..4] == q && (q + s)[4..] == s;
      RestInFreshLine(s, columns);
    } else {
      assert (q + s)[..room] == q + s[..room - 4] && (q + s)[room..] == s[room - 4..];
      var after := DataText(s[room - 4..], columns);
      assert (q + s[..room - 4]) + "\n" + after == q + (s[..room - 4] + "\n" + after);
    }
  }

  /** Write some data in base64 representation, followed by a delimiter. */
  method Encode(f: Output, src: seq<Byte>, columns: Option<nat>, delim: Option<string>)
    requires IsLineLength(columns)
    modifies f
    ensures f.text == old(f.text) + Concat(EncodedLines(src, columns, delim))
  {
    EncodeData(f, src, columns);
    if delim.Some? {
      f.Write(delim.value + "\n");
    }
    TextOfLines(old(f.text), src, columns, delim);
  }

  lemma TextOfLines(start: string, src: seq<Byte>, columns: Option<nat>, delim: Option<string>)
    requires IsLineLength(columns)
    ensures start + Concat(EncodedLines(src, columns, delim)) ==
      start + DataText(EncodeAll(src), columns) + if delim.Some? then delim.value + "\n" else ""
  {
    var data := Terminate(Wrap(EncodeAll(src), columns));
    if delim.Some? {
      var last := delim.value + "\n";
      ConcatSplits(data, [last]);
      assert Concat([last]) == last + "";
      assert start + (Concat(data) + last) == start + Concat(data) + last;
    } else {
      assert data + [] == data;
      assert start + DataText(EncodeAll(src), columns) + "" == start + DataText(EncodeAll(src), columns);
    }
  }

  /** What remains to be written, including the final newline. */
  function Remaining(src: seq<Byte>, room: nat, columns: Option<nat>): string
    requires columns.Some? ==> columns.value > 0
  {
    if src == [] then "\n" else Rest(EncodeAll(src), room, columns)
  }

  lemma ModIsUnique(n: nat, k: nat, r: nat)
    requires r < n
    ensures n * k >= 0
    ensures (n * k + r) % n == r
  {
    MultipleIsLarge(n, k);
    var x := n * k + r;
    var d := x / n - k;
    assert x == n * (x / n) + x % n;
    assert n * d == r - x % n by {
      assert n * d == n * (x / n) - n * k;
    }
    MultipleIsLarge(n, d);
  }

  lemma MultipleIsLarge(n: nat, d: int)
    ensures d >= 1 ==> n * d >= n
    ensures d <= -1 ==> n * d + n <= 0
  {
    if d >= 1 {
      assert n * d == n * (d - 1) + n;
    } else if d <= -1 {
      assert n * d == n * (d + 1) - n;
    }
  }

  lemma ModSucc(x: nat, n: nat)
    requires n > 0
    ensures x % n < n
    ensures (x + 1) % n == if x % n == n - 1 then 0 else x % n + 1
  {
    var k, r := x / n, x % n;
    assert x == n * k + r;
    if r == n - 1 {
      assert x + 1 == n * (k + 1) + 0 by {
        assert n * (k + 1) == n * k + n;
      }
      ModIsUnique(n, k + 1, 0);
    } else {
      ModIsUnique(n, k, r + 1);
    }
  }

  /** The room in the current line after a number of quads. */
  function Room(ocnt: nat, columns: Option<nat>): (room: nat)
    requires IsLineLength(columns)
    ensures columns.Some? ==> 0 < room <= columns.value && room % 4 == 0
  {
    if columns.None? then 0
    else
      ModSucc(ocnt, columns.value / 4);
      columns.value - ocnt % (columns.value / 4) * 4
  }

  lemma NextRoom(ocnt: nat, columns: nat)
    requires columns > 0 && columns % 4 == 0
    ensures Room(ocnt, Some(columns)) == 4 <==> (ocnt + 1) % (columns / 4) == 0
    ensures Room(ocnt + 1, Some(columns)) ==
      if Room(ocnt, Some(columns)) == 4 then columns else Room(ocnt, Some(columns)) - 4
  {
    ModSucc(ocnt, columns / 4);
  }

  method EncodeData(f: Output, src: seq<Byte>, columns: Option<nat>)
    requires IsLineLength(columns)
    modifies f
    ensures f.text == old(f.text) + DataText(EncodeAll(src), columns)
  {
    if src == [] {
      return;
    }
    RestInFreshLine(EncodeAll(src), columns);
    var blen := |src| - |src| % 3;
    var ocnt := EncodeBulk(f, src, blen, columns);
    if blen != |src| {
      EncodeLast(f, src[blen..], Room(ocnt, columns), columns);
    }
    f.Write("\n");
  }

  /** Convert as many groups of three bytes as possible. */
  method EncodeBulk(f: Output, src: seq<Byte>, blen: nat, columns: Option<nat>) returns (ocnt: nat)
    requires IsLineLength(columns)
    requires blen == |src| - |src| % 3
    modifies f
    ensures f.text + Remaining(src[blen..], Room(ocnt, columns), columns) ==
      old(f.text) + Remaining(src, Room(0, columns), columns)
  {
    hide Remaining, Room;
    ghost var groups, g := |src| / 3, 0;
    assert blen == 3 * groups;
    ocnt := 0;
    var pos := 0;
    assert src[0..] == src;
    while pos < blen
      invariant pos == 3 * g && g <= groups
      invariant f.text + Remaining(src[pos..], Room(ocnt, columns), columns) ==
        old(f.text) + Remaining(src, Room(0, columns), columns)
    {
      ocnt := EncodeThree(f, src, pos, ocnt, columns);
      pos, g := pos + 3, g + 1;
    }
  }

  /** Convert three bytes of data to four characters of output. */
  method EncodeThree(f: Output, src: seq<Byte>, pos: nat, ocnt: nat, columns: Option<nat>)
    returns (newCount: nat)
    requires IsLineLength(columns) && pos + 3 <= |src|
    modifies f
    ensures f.text + Remaining(src[pos + 3..], Room(newCount, columns), columns) ==
      old(f.text) + Remaining(src[pos..], Room(ocnt, columns), columns)
  {
    hide Remaining, Room;
    var i0, i1, i2 := src[pos], src[pos + 1], src[pos + 2];
    assert src[pos..][3..] == src[pos + 3..];
    GroupIsCounted(f.text, src[pos..], ocnt, columns);
    f.Write([Digit(i0 / 4), Digit((i0 % 4) * 16 + i1 / 16), Digit((i1 % 16) * 4 + i2 / 64), Digit(i2 % 64)]);
    newCount := ocnt;
    if columns.Some? {
      newCount := newCount + 1;
      if newCount % (columns.value / 4) == 0 && pos != |src| - 3 {
        f.Write("\n");
      }
    }
  }

  /** Padding with the remaining one or two bytes. */
  method EncodeLast(f: Output, src: seq<Byte>, ghost room: nat, ghost columns: Option<nat>)
    requires columns.Some? ==> columns.value > 0 && 4 <= room
    requires |src| == 1 || |src| == 2
    modifies f
    ensures f.text + "\n" == old(f.text) + Remaining(src, room, columns)
  {
    var i0 := src[0];
    var i1 := if |src| == 1 then 0 else src[1];
    f.Write([Digit(i0 / 4), Digit((i0 % 4) * 16 + i1 / 16)]);
    f.Write(if |src| == 1 then "=" else [Digit((i1 % 16) * 4)]);
    f.Write("=");
    assert f.text == old(f.text) + EncodeAll(src);
  }

  lemma RemainingAfterThree(start: string, src: seq<Byte>, room: nat, columns: Option<nat>)
    requires |src| >= 3
    requires columns.Some? ==> columns.value > 0 && room % 4 == 0 && room > 0
    ensures
      var q, rest := Quad(src[0], src[1], src[2]), src[3..];
      start + Remaining(src, room, columns) ==
        if columns.None? then start + q + Remaining(rest, 0, columns)
        else if room == 4 && rest != [] then start + q + "\n" + Remaining(rest, columns.value, columns)
        else start + q + Remaining(rest, if room == 4 then columns.value else room - 4, columns)
  {
    hide Rest;
    RestAfterQuad(Quad(src[0], src[1], src[2]), EncodeAll(src[3..]), room, columns);
  }

  /** The line is broken when it is full, unless the data ends there. */
  lemma GroupIsCounted(start: string, src: seq<Byte>, ocnt: nat, columns: Option<nat>)
    requires |src| >= 3 && IsLineLength(columns)
    ensures
      var q, rest := Quad(src[0], src[1], src[2]), src[3..];
      start + Remaining(src, Room(ocnt, columns), columns) ==
        if columns.None? then start + q + Remaining(rest, Room(ocnt, columns), columns)
        else if (ocnt + 1) % (columns.value / 4) == 0 && rest != [] then
          start + q + "\n" + Remaining(rest, Room(ocnt + 1, columns), columns)
        else start + q + Remaining(rest, Room(ocnt + 1, columns), columns)
  {
    RemainingAfterThree(start, src, Room(ocnt, columns), columns);
    hide Remaining, Quad;
    if columns.Some? {
      NextRoom(ocnt, columns.value);
    }
  }
}
