/** Formatting and parsing hybrid numbers step by step, as lists of bits and
    parts of strings. */
module HybridStrings {
  import opened Wrappers
  import opened Sequences
  import opened Decimals
  import opened Bits
  import opened HybridNum
  import FixedNum

  /** The bits of some hexadecimal digits. */
  function BitsOfHex(s: string): (bits: seq<Bit>)
    requires AreHexDigits(s)
    ensures |bits| == 4 * |s|
  {
    if s == "" then [] else BitsOfHex(s[..|s| - 1]) + BitsOfDigit(s[|s| - 1])
  }

  function BitsOfDigit(c: char): (bits: seq<Bit>)
    requires IsHexDigit(c)
    ensures |bits| == 4
  {
    var d := HexDigitValue(c);
    [d / 8 % 2, d / 4 % 2, d / 2 % 2, d % 2]
  }

  lemma DigitHasValueOfBits(c: char)
    requires IsHexDigit(c)
    ensures Nibble(BitsOfDigit(c)) == HexDigitValue(c)
  {
    var d := HexDigitValue(c);
    assert d == 8 * (d / 8 % 2) + 4 * (d / 4 % 2) + 2 * (d / 2 % 2) + d % 2;
  }

  lemma HexOfSum(bits: seq<Bit>, four: seq<Bit>)
    requires |bits| % 4 == 0 && |four| == 4
    ensures HexOf(bits + four) == HexOf(bits) + [HexChar(Nibble(four))]
  {
    hide Nibble;
    var sum := bits + four;
    assert sum[..|bits|] == bits && sum[|bits|..] == four;
  }

  lemma CharOfDigitValue(c: char)
    requires IsHexDigit(c)
    ensures HexChar(HexDigitValue(c)) == c
  {
  }

  /** Hexadecimal digits are determined by their bits. */
  lemma {:induction false} HexReturns(s: string)
    requires AreHexDigits(s)
    ensures HexOf(BitsOfHex(s)) == s
  {
    hide BitsOfDigit, Nibble, HexChar, HexDigitValue, IsHexDigit;
    if s != "" {
      var n := |s| - 1;
      HexReturns(s[..n]);
      HexOfSum(BitsOfHex(s[..n]), BitsOfDigit(s[n]));
      DigitHasValueOfBits(s[n]);
      CharOfDigitValue(s[n]);
      assert s == s[..n] + [s[n]];
    }
  }

  /** The number denoted by 0xL.HHHpE in C99 hexadecimal notation. */
  function FloatOfHex(isNegative: bool, lead: Bit, mantissa: string, exp: int): (x: Float)
    requires AreHexDigits(mantissa)
    ensures x.bits != []
  {
    Float(isNegative, [lead] + BitsOfHex(mantissa), exp)
  }

  // Formatting

  method ReadBits(lead: Bit, mantissa: string) returns (bits: seq<Bit>)
    requires AreHexDigits(mantissa)
    ensures bits == [lead] + BitsOfHex(mantissa)
  {
    bits := [lead];
    for i := 0 to |mantissa|
      invariant bits == [lead] + BitsOfHex(mantissa[..i])
    {
      assert mantissa[i] in mantissa;
      var d := HexDigitValue(mantissa[i]);
      bits := bits + [d / 8 % 2];
      bits := bits + [d / 4 % 2];
      bits := bits + [d / 2 % 2];
      bits := bits + [d % 2];
      assert mantissa[..i + 1][..i] == mantissa[..i];
    }
    assert mantissa[..|mantissa|] == mantissa;
  }

  method CutBits(input: seq<Bit>, exp: int) returns (before: seq<Bit>, after: seq<Bit>)
    ensures Parts(before, after) == SplitBits(input, exp)
  {
    if exp < 0 {
      before, after := [], ZeroBits(-(exp + 1)) + input;
    } else {
      var bits := input;
      assert input + ZeroBits(0) == input;
      while |bits| < exp + 1
        invariant |bits| >= |input| && bits == input + ZeroBits(|bits| - |input|)
        invariant |bits| <= exp + 1 || bits == input
      {
        assert ZeroBits(|bits| - |input|) + [0] == ZeroBits(|bits| + 1 - |input|);
        bits := bits + [0];
      }
      before, after := bits[..exp + 1], bits[exp + 1..];
    }
  }

  method TrimBits(input: seq<Bit>) returns (bits: seq<Bit>)
    ensures bits == FillBits(StripBits(input))
  {
    bits := input;
    while bits != [] && bits[|bits| - 1] == 0
      invariant StripBits(bits) == StripBits(input)
      decreases |bits|
    {
      bits := bits[..|bits| - 1];
    }
    ghost var t := bits;
    assert t + ZeroBits(0) == t;
    while |bits| % 4 != 0
      invariant |t| <= |bits| <= |t| + Missing(|t|) && bits == t + ZeroBits(|bits| - |t|)
      decreases |t| + Missing(|t|) - |bits|
    {
      assert ZeroBits(|bits| - |t|) + [0] == ZeroBits(|bits| + 1 - |t|);
      bits := bits + [0];
    }
  }

  lemma EmptyHex()
    ensures HexOf([]) == ""
  {
  }

  method WriteHex(bits: seq<Bit>) returns (after: string)
    requires |bits| % 4 == 0
    ensures after == HexOf(bits)
  {
    hide HexOf, Nibble, HexChar;
    EmptyHex();
    after := "";
    var i := 0;
    while i < |bits|
      invariant i <= |bits| && i % 4 == 0 && after == HexOf(bits[..i])
    {
      HexOfSum(bits[..i], bits[i..i + 4]);
      assert bits[..i + 4] == bits[..i] + bits[i..i + 4];
      after := after + [HexChar(Nibble(bits[i..i + 4]))];
      i := i + 4;
    }
    assert bits[..|bits|] == bits;
  }

  /** Format a number given in hexadecimal notation. */
  method FormatFloat(isNegative: bool, lead: Bit, mantissa: string, exp: int, d: nat) returns (s: string)
    requires AreHexDigits(mantissa)
    ensures s == Format(FloatOfHex(isNegative, lead, mantissa, exp), d)
  {
    hide SplitBits, StripBits, FillBits, HexOf, ValueOfBits, FixedNum.Pad;
    var sign := if isNegative then "-" else "";
    var bits := ReadBits(lead, mantissa);
    var bitsBefore, bitsAfter := CutBits(bits, exp);
    bitsAfter := TrimBits(bitsAfter);
    var before := Digits(ValueOfBits(bitsBefore));
    var after := WriteHex(bitsAfter);
    s := Assemble(sign, before, after, d);
  }

  // Parsing

  method CheckHexDigits(s: string) returns (ok: bool)
    ensures ok == AreHexDigits(s)
  {
    for i := 0 to |s|
      invariant AreHexDigits(s[..i])
    {
      if !IsHexDigit(s[i]) {
        assert s[i] in s;
        return false;
      }
      assert s[..i + 1] == s[..i] + [s[i]];
    }
    assert s[..|s|] == s;
    return true;
  }

  /** Find the parts before and after the decimal point. */
  method SplitString(s: string, d: nat, isExact: bool) returns (r: Option<(string, string)>)
    requires !isExact ==> s != ""
    ensures r == if isExact then SplitExactly(s, d) else FixedNum.SplitParts(s, d)
  {
    hide FixedNum.Zeros, FixedNum.IndexOf;
    var before0, before1 := s, "";
    var dot := FixedNum.IndexOf(s, '.');
    if d == 0 {
      if dot < |s| {
        return None;
      }
    } else if dot == |s| {
      if s != "" && isExact {
        return None;
      }
    } else {
      before0, before1 := s[..dot], s[dot + 1..];
      if before0 == "" && before1 == "" {
        return None;
      }
      assert before1 + FixedNum.Zeros(0) == before1;
      if |before1| < d {
        if isExact {
          return None;
        }
        before1 := before1 + FixedNum.Zeros(d - |before1|);
      }
    }
    if |before1| > d {
      return None;
    }
    r := Some((before0, before1));
  }

  /** Combine the parts of a number. */
  method JoinParts(parts: (string, string), after: string, d: nat, isNegative: bool) returns (r: Option<Dyadic>)
    ensures r == Negate(Combine(parts, after, d), isNegative)
  {
    hide FixedNum.Magnitude, Pow2, ValueOfHex;
    var hex := if after == "" then "0" else after;
    var ok := FixedNum.CheckDigits(parts.0 + parts.1);
    assert AreDigits(parts.0 + parts.1) <==> AreDigits(parts.0) && AreDigits(parts.1);
    if !ok {
      return None;
    }
    ok := CheckHexDigits(hex);
    if !ok {
      return None;
    }
    var k := 4 * |hex|;
    var x := FixedNum.Magnitude(parts.0, parts.1, d) * Pow2(k) + ValueOfHex(hex);
    if x == 0 {
      return Some(Dyadic(0, 0));
    }
    r := Some(Dyadic(Signed(isNegative, x), k));
  }

  /** Parse by taking the string apart step by step. */
  method ParseString(input: string, d: nat) returns (r: Option<Dyadic>)
    ensures r == Parse(input, d)
  {
    hide SplitExactly, FixedNum.SplitParts, Combine;
    var s, isNegative := input, false;
    if s != "" && s[0] == '-' {
      isNegative := true;
      s := s[1..];
    }
    var after := None;
    var colon := FixedNum.IndexOf(s, ':');
    if colon == |s| {
      if s == "" {
        NothingToSplit(d);
        return None;
      }
    } else {
      after := Some(s[colon + 1..]);
      s := s[..colon];
      if after.value == "" && s == "" {
        return None;
      }
    }
    var parts := SplitString(s, d, after.Some?);
    if parts.None? {
      return None;
    }
    r := JoinParts(parts.value, if after.None? then "" else after.value, d, isNegative);
  }

  lemma NothingToSplit(d: nat)
    ensures FixedNum.SplitParts("", d).None?
  {
  }

  // Every dyadic fraction is covered

  function BitsOf(n: nat): (bits: seq<Bit>)
    ensures bits != []
  {
    if n < 2 then [n] else BitsOf(n / 2) + [n % 2]
  }

  lemma {:induction false} ValueOfBitsOf(n: nat)
    ensures ValueOfBits(BitsOf(n)) == n
  {
    if n < 2 {
      assert [n as Bit][..0] == [];
    } else {
      ValueOfBitsOf(n / 2);
      var bits := BitsOf(n);
      assert bits[..|bits| - 1] == BitsOf(n / 2);
    }
  }

  /** Every dyadic fraction is read back after it has been written. */
  lemma EveryFractionReturns(v: Dyadic, d: nat)
    ensures
      var bits := BitsOf(if v.num < 0 then -v.num else v.num);
      var x := Float(v.num < 0, bits, |bits| - 1 - v.shift);
      SameValue(Value(x), v) && Denotes(Format(x, d), d, v)
  {
    hide Format, Parse, BitsOf, SameValue;
    var bits := BitsOf(if v.num < 0 then -v.num else v.num);
    var x := Float(v.num < 0, bits, |bits| - 1 - v.shift);
    ValueOfFraction(v);
    ParseReturns(x, d);
    SameAsThird(Parse(Format(x, d), d).value, Value(x), v);
  }

  lemma ValueOfFraction(v: Dyadic)
    ensures
      var bits := BitsOf(if v.num < 0 then -v.num else v.num);
      SameValue(Value(Float(v.num < 0, bits, |bits| - 1 - v.shift)), v)
  {
    hide BitsOf, ValueOfBits;
    ValueOfBitsOf(if v.num < 0 then -v.num else v.num);
    assert Pow2(0) == 1;
  }

  lemma SameAsThird(a: Dyadic, b: Dyadic, c: Dyadic)
    requires SameValue(a, b) && SameValue(b, c)
    ensures SameValue(a, c)
  {
    hide Pow2;
    CancelMiddle(a.num, b.num, c.num, Pow2(a.shift), Pow2(b.shift), Pow2(c.shift));
  }

  lemma CancelMiddle(a: int, b: int, c: int, p: nat, q: nat, r: nat)
    requires a * q == b * p && b * r == c * q && q > 0
    ensures a * r == c * p
  {
    assert (a * r) * q == (a * q) * r == (b * p) * r == (b * r) * p == (c * q) * p == (c * p) * q;
    CancelFactor(a * r, c * p, q);
  }

  lemma CancelFactor(a: int, b: int, q: nat)
    requires a * q == b * q && q > 0
    ensures a == b
  {
    assert (a - b) * q == 0;
    ZeroProduct(a - b, q);
  }
}
