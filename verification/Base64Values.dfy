/** What encoded data means as numbers: four characters of the alphabet have the
    same value as three bytes. */
module Base64Values {
  import opened Wrappers
  import opened Sequences
  import opened Streams
  import opened Base64
  import opened Base64Decoding
  import opened Base64RoundTrip

  // The alphabet

  /** Eight characters which stand for consecutive values. */
  ghost predicate AreDigitsFrom(s: string, v: nat)
    requires v + 8 <= 64
  {
    |s| == 8 && forall i :: 0 <= i < 8 ==> Digit(v + i) == s[i]
  }

  /** The alphabet of section 6.8 of RFC 2045, in the order of values. */
  lemma Alphabet()
    ensures AreDigitsFrom("ABCDEFGH", 0) && AreDigitsFrom("IJKLMNOP", 8)
    ensures AreDigitsFrom("QRSTUVWX", 16) && AreDigitsFrom("YZabcdef", 24)
    ensures AreDigitsFrom("ghijklmn", 32) && AreDigitsFrom("opqrstuv", 40)
    ensures AreDigitsFrom("wxyz0123", 48) && AreDigitsFrom("456789+/", 56)
  {
  }

  // Values

  /** The value of some characters of the alphabet. */
  function ValueOfDigits(s: string): nat
    requires forall c :: c in s ==> IsBase64(c)
  {
    if s == "" then 0 else 64 * ValueOfDigits(s[..|s| - 1]) + Rank(s[|s| - 1])
  }

  function ValueOfBytes(b: seq<Byte>): nat {
    if b == [] then 0 else 256 * ValueOfBytes(b[..|b| - 1]) + b[|b| - 1]
  }

  lemma OneMoreDigit(s: string, v: nat)
    requires v < 64 && forall c :: c in s ==> IsBase64(c)
    ensures forall c :: c in s + [Digit(v)] ==> IsBase64(c)
    ensures ValueOfDigits(s + [Digit(v)]) == 64 * ValueOfDigits(s) + v
  {
    RankOfDigit(v);
    hide Digit, Rank;
    assert (s + [Digit(v)])[..|s|] == s;
  }

  lemma OneMoreByte(s: seq<Byte>, b: Byte)
    ensures ValueOfBytes(s + [b]) == 256 * ValueOfBytes(s) + b
  {
    assert (s + [b])[..|s|] == s;
  }

  /** Three bytes have the same value as the four characters which stand for
      them. */
  lemma QuadHasValue(b0: Byte, b1: Byte, b2: Byte)
    ensures |Quad(b0, b1, b2)| == 4 && forall c :: c in Quad(b0, b1, b2) ==> IsBase64(c)
    ensures ValueOfDigits(Quad(b0, b1, b2)) == ValueOfBytes([b0, b1, b2])
  {
    var v0, v1, v2, v3 := b0 / 4, (b0 % 4) * 16 + b1 / 16, (b1 % 16) * 4 + b2 / 64, b2 % 64;
    assert v0 < 64 && v1 < 64 && v2 < 64 && v3 < 64;
    BitsOfThree(b0, b1, b2);
    assert ValueOfDigits("") == 0 && ValueOfBytes([]) == 0;
    hide Digit, Rank, ValueOfDigits, ValueOfBytes;
    var s1, s2, s3 := [Digit(v0)], [Digit(v0), Digit(v1)], [Digit(v0), Digit(v1), Digit(v2)];
    assert "" + s1 == s1 && s1 + [Digit(v1)] == s2 && s2 + [Digit(v2)] == s3;
    OneMoreDigit("", v0);
    OneMoreDigit(s1, v1);
    OneMoreDigit(s2, v2);
    OneMoreDigit(s3, v3);
    assert s3 + [Digit(v3)] == Quad(b0, b1, b2);
    assert [] + [b0] == [b0] && [b0] + [b1] == [b0, b1] && [b0, b1] + [b2] == [b0, b1, b2];
    OneMoreByte([], b0);
    OneMoreByte([b0], b1);
    OneMoreByte([b0, b1], b2);
  }

  lemma BitsOfThree(b0: Byte, b1: Byte, b2: Byte)
    ensures ((b0 / 4 * 64 + ((b0 % 4) * 16 + b1 / 16)) * 64 + ((b1 % 16) * 4 + b2 / 64)) * 64 + b2 % 64
      == (b0 * 256 + b1) * 256 + b2
  {
  }

  /** One or two bytes at the end are filled up with zero bits, and with as many
      padding characters as bytes are missing. */
  lemma LastHasValue(b0: Byte, b1: Byte)
    ensures EncodeAll([b0]) == Quad(b0, 0, 0)[..2] + "=="
    ensures EncodeAll([b0, b1]) == Quad(b0, b1, 0)[..3] + "="
    ensures Quad(b0, 0, 0)[2..] == "AA" && Quad(b0, b1, 0)[3..] == "A"
  {
    assert Digit(0) == 'A';
    hide Digit;
    assert EncodeAll([b0]) == [Digit(b0 / 4), Digit((b0 % 4) * 16), '=', '='];
    assert EncodeAll([b0, b1]) == [Digit(b0 / 4), Digit((b0 % 4) * 16 + b1 / 16), Digit((b1 % 16) * 4), '='];
  }

  // Errors

  /** A character outside of Latin-1 is an error of its own, provided that no other
      error has been found before it. */
  lemma {:induction false} IndexErrorExactlyIf(r: Reading, s: string)
    requires IsConsistent(r)
    ensures ReadChars(r, s) == Fail(IndexError) <==> exists i: nat :: IsFirstError(r, s, i)
    decreases |s|
  {
    hide Shift, Rank;
    if s != "" {
      var t := ReadChar(r, s[0]);
      AtOnce(r, s);
      if t.Next? {
        IndexErrorExactlyIf(t.reading, s[1..]);
        if i: nat :| IsFirstError(t.reading, s[1..], i) {
          LaterError(r, s, i);
        }
        if i: nat :| IsFirstError(r, s, i) {
          assert i > 0;
          LaterError(r, s, i - 1);
        }
      } else if i: nat :| IsFirstError(r, s, i) {
        NoLaterError(r, s, i);
      }
    }
  }

  lemma AtOnce(r: Reading, s: string)
    requires IsConsistent(r) && s != ""
    ensures IsFirstError(r, s, 0) <==> ReadChar(r, s[0]) == Fail(IndexError)
  {
    hide Shift, Rank;
    assert s[..0] == "";
  }

  ghost predicate IsFirstError(r: Reading, s: string, i: nat)
    requires IsConsistent(r)
  {
    i < |s| && s[i] as int >= 256 && ReadChars(r, s[..i]).Next?
  }

  lemma LaterError(r: Reading, s: string, i: nat)
    requires IsConsistent(r) && s != "" && ReadChar(r, s[0]).Next?
    ensures IsFirstError(r, s, i + 1) <==> IsFirstError(ReadChar(r, s[0]).reading, s[1..], i)
  {
    hide Shift, Rank;
    if i < |s[1..]| {
      assert s[..i + 1][0] == s[0] && s[..i + 1][1..] == s[1..][..i];
    }
  }

  lemma NoLaterError(r: Reading, s: string, i: nat)
    requires IsConsistent(r) && s != "" && ReadChar(r, s[0]).Fail?
    ensures i > 0 ==> !IsFirstError(r, s, i)
  {
    hide Shift, Rank;
    if 0 < i < |s| {
      assert s[..i][0] == s[0];
    }
  }
}
