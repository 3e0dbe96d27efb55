/** Reading base64-encoded data, and why nothing gets lost or added by writing
    and reading it. */
module Base64Decoding {
  import opened Wrappers
  import opened Streams
  import opened Base64

  const PAD := '='

  /** The data read so far; the last byte may be incomplete, and bits which
      belong to the next byte are kept in `res`. */
  datatype Reading = Reading(dst: seq<Byte>, state: nat, res: nat, pad: nat)

  datatype Outcome = Decoded(data: seq<Byte>) | DecodingError | IndexError

  const START := Reading([], 0, 0, 0)

  ghost predicate IsConsistent(r: Reading) {
    && r.state < 4
    && (r.state == 1 ==> r.dst != [] && r.dst[|r.dst| - 1] % 4 == 0)
    && (r.state == 2 ==> r.dst != [] && r.res < 256 && r.res % 16 == 0)
    && (r.state == 3 ==> |r.dst| >= 2 && r.res < 256 && r.res % 64 == 0)
  }

  // What decoding does

  /** Two parts of a byte put together. */
  function Join(high: nat, low: nat): (b: Byte)
    requires high < 256
    requires (high % 4 == 0 && low < 4) || (high % 16 == 0 && low < 16) || (high % 64 == 0 && low < 64)
    ensures b == high + low
  {
    if high % 4 == 0 && low < 4 then OrDisjoint4(high / 4, low); Or(high, low)
    else if high % 16 == 0 && low < 16 then OrDisjoint16(high / 16, low); Or(high, low)
    else OrDisjoint64(high / 64, low); Or(high, low)
  }

  /** Take in the value of a base64 character. */
  function Shift(r: Reading, v: nat): (s: Reading)
    requires IsConsistent(r) && v < 64
    ensures IsConsistent(s)
  {
    if r.state == 0 then r.(dst := r.dst + [v * 4], state := 1)
    else if r.state == 1 then
      var n := |r.dst| - 1;
      r.(dst := r.dst[n := Join(r.dst[n], v / 16)], res := (v % 16) * 16, state := 2)
    else if r.state == 2 then
      r.(dst := r.dst + [Join(r.res, v / 4)], res := (v % 4) * 64, state := 3)
    else
      r.(dst := r.dst + [Join(r.res, v)], state := 0)
  }

  datatype Step = Next(reading: Reading) | Fail(outcome: Outcome)

  /** Take in a character: count the padding, ignore everything which isn't
      base64, but don't accept data after padding. */
  function ReadChar(r: Reading, c: char): (s: Step)
    requires IsConsistent(r)
    ensures s.Next? ==> IsConsistent(s.reading)
    ensures s.Fail? ==> !s.outcome.Decoded?
  {
    if c == PAD then Next(r.(pad := r.pad + 1))
    else if c as int >= 256 then Fail(IndexError)
    else if Rank(c) == NO_RANK then Next(r)
    else if r.pad != 0 then Fail(DecodingError)
    else Next(Shift(r, Rank(c)))
  }

  function ReadChars(r: Reading, s: string): (t: Step)
    requires IsConsistent(r)
    ensures t.Next? ==> IsConsistent(t.reading)
    ensures t.Fail? ==> !t.outcome.Decoded?
    decreases |s|
  {
    if s == "" then Next(r)
    else
      var t := ReadChar(r, s[0]);
      if t.Fail? then t else ReadChars(t.reading, s[1..])
  }

  /** Check that the data ends on a byte boundary, with the right amount of
      padding, and without any bits set that don't belong to a byte. */
  function Finish(r: Reading): Outcome {
    if r.pad != 0 then
      if r.state == 0 || r.state == 1 then DecodingError
      else if r.state == 2 && r.pad != 2 then DecodingError
      else if r.state == 3 && r.pad != 1 then DecodingError
      else if r.res != 0 then DecodingError
      else Decoded(r.dst)
    else if r.state != 0 then DecodingError
    else Decoded(r.dst)
  }

  datatype Result = Result(outcome: Outcome, rest: seq<string>)

  /** Take in lines up to the delimiter, or all lines. */
  function ReadLines(r: Reading, lines: seq<string>, delim: Option<string>): (result: Result)
    requires IsConsistent(r)
    ensures |result.rest| <= |lines|
    decreases |lines|
  {
    if lines == [] then Result(if delim.Some? then DecodingError else Finish(r), [])
    else if delim.Some? && lines[0] == delim.value + "\n" then Result(Finish(r), lines[1..])
    else
      var t := ReadChars(r, lines[0]);
      if t.Fail? then Result(t.outcome, lines[1..]) else ReadLines(t.reading, lines[1..], delim)
  }

  function Decoding(lines: seq<string>, delim: Option<string>): Result {
    ReadLines(START, lines, delim)
  }

  /** Take in the characters of a line. */
  method ReadLine(r: Reading, line: string) returns (t: Step)
    requires IsConsistent(r)
    ensures t == ReadChars(r, line)
  {
    var dst: seq<Byte>, state: nat, res: nat, pad: nat := r.dst, r.state, r.res, r.pad;
    var i := 0;
    while i < |line|
      invariant i <= |line| && IsConsistent(Reading(dst, state, res, pad))
      invariant ReadChars(Reading(dst, state, res, pad), line[i..]) == ReadChars(r, line)
    {
      hide Join;
      ghost var before := Reading(dst, state, res, pad);
      var ch := line[i];
      assert ReadChars(before, line[i..]) ==
        var s := ReadChar(before, ch); if s.Fail? then s else ReadChars(s.reading, line[i + 1..]);
      i := i + 1;
      if ch == PAD {
        pad := pad + 1;
        continue;
      }
      if ch as int >= 256 {
        return Fail(IndexError);
      }
      var pos := Rank(ch);
      if pos == NO_RANK {
        continue;
      }
      if pad != 0 {
        return Fail(DecodingError);
      }
      ghost var after := Shift(before, pos);
      if state == 0 {
        dst := dst + [pos * 4];
        state := 1;
      } else if state == 1 {
        dst := dst[|dst| - 1 := Join(dst[|dst| - 1], pos / 16)];
        res := (pos % 16) * 16;
        state := 2;
      } else if state == 2 {
        dst := dst + [Join(res, pos / 4)];
        res := (pos % 4) * 64;
        state := 3;
      } else {
        dst := dst + [Join(res, pos)];
        state := 0;
      }
      assert Reading(dst, state, res, pad) == after;
    }
    return Next(Reading(dst, state, res, pad));
  }

  /** Read some data in base64 representation. */
  method Decode(f: Input, delim: Option<string>) returns (r: Outcome)
    modifies f
    ensures Result(r, f.lines) == Decoding(old(f.lines), delim)
  {
    var reading := START;
    while true
      invariant IsConsistent(reading)
      invariant ReadLines(reading, f.lines, delim) == Decoding(old(f.lines), delim)
      decreases |f.lines|
    {
      var line := f.Next();
      if line.None? {
        if delim.Some? {
          return DecodingError;
        }
        break;
      }
      if delim.Some? && line.value == delim.value + "\n" {
        break;
      }
      var t := ReadLine(reading, line.value);
      if t.Fail? {
        return t.outcome;
      }
      reading := t.reading;
    }
    return Finish(reading);
  }
}
