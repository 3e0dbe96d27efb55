/** A hybrid number notation: decimal digits for what can be expressed in a
    fixed-point notation, hexadecimal digits for the rest of the fraction.

    A floating-point number is given by the bits of its mantissa and its
    exponent, as the hexadecimal notation of the number has them. */
module HybridNum {
  import opened Wrappers
  import opened Sequences
  import opened Decimals
  import opened Bits
  import FixedNum

  /** The number with the given bits, the first one standing for 2 to the power
      of the exponent. */
  datatype Float = Float(isNegative: bool, bits: seq<Bit>, exp: int)

  /** The fraction num / 2^shift. */
  datatype Dyadic = Dyadic(num: int, shift: nat)

  ghost predicate SameValue(a: Dyadic, b: Dyadic) {
    a.num * Pow2(b.shift) == b.num * Pow2(a.shift)
  }

  /** The exact value of a floating-point number without its sign. */
  function Magnitude(x: Float): Dyadic
    requires x.bits != []
  {
    var e := x.exp - (|x.bits| - 1);
    if e >= 0 then Dyadic(ValueOfBits(x.bits) * Pow2(e), 0) else Dyadic(ValueOfBits(x.bits), -e)
  }

  function Signed(isNegative: bool, m: int): int {
    if isNegative then 0 - m else m
  }

  function Value(x: Float): Dyadic
    requires x.bits != []
  {
    var m := Magnitude(x);
    Dyadic(Signed(x.isNegative, m.num), m.shift)
  }

  // Splitting the bits into an integer and a fraction

  datatype Parts = Parts(before: seq<Bit>, after: seq<Bit>)

  function SplitBits(bits: seq<Bit>, exp: int): Parts {
    if exp < 0 then Parts([], ZeroBits(-(exp + 1)) + bits)
    else
      var long := if |bits| < exp + 1 then bits + ZeroBits(exp + 1 - |bits|) else bits;
      Parts(long[..exp + 1], long[exp + 1..])
  }

  function StripBits(bits: seq<Bit>): (r: seq<Bit>)
    ensures |r| <= |bits| && bits == r + ZeroBits(|bits| - |r|)
    ensures r != [] ==> r[|r| - 1] == 1
  {
    if bits == [] || bits[|bits| - 1] != 0 then
      assert bits == bits + ZeroBits(0);
      bits
    else
      var n := |bits| - 1;
      var r := StripBits(bits[..n]);
      assert bits == bits[..n] + [0];
      assert ZeroBits(n - |r|) + [0] == ZeroBits(n + 1 - |r|);
      assert r + (ZeroBits(n - |r|) + [0]) == (r + ZeroBits(n - |r|)) + [0];
      r
  }

  /** The number of bits missing for a whole number of hexadecimal digits. */
  function Missing(n: nat): (m: nat)
    ensures m < 4 && (n + m) % 4 == 0
  {
    (4 - n % 4) % 4
  }

  function FillBits(bits: seq<Bit>): (r: seq<Bit>)
    ensures |r| % 4 == 0
  {
    bits + ZeroBits(Missing(|bits|))
  }

  function WholePart(x: Float): nat
    requires x.bits != []
  {
    ValueOfBits(SplitBits(x.bits, x.exp).before)
  }

  /** The hexadecimal digits of the fraction. */
  function FractionDigits(x: Float): (s: string)
    requires x.bits != []
    ensures AreHexDigits(s)
  {
    HexOf(FillBits(StripBits(SplitBits(x.bits, x.exp).after)))
  }

  // Formatting

  function Assemble(sign: string, before: string, after: string, d: nat): string {
    if d == 0 then
      if after != "" then
        if before == "0" then sign + ":" + after else sign + before + ":" + after
      else if before == "0" then "0"
      else sign + before
    else
      var t := FixedNum.Pad(before, d);
      var before0, before1 := t[..|t| - d], t[|t| - d..];
      if FixedNum.StripZeros(before1) == "" then
        if after != "" then
          if before0 == "" then sign + ":" + after else sign + before0 + "." + before1 + ":" + after
        else if before0 == "" then "0"
        else sign + before0
      else if after != "" then sign + before0 + "." + before1 + ":" + after
      else sign + before0 + "." + FixedNum.StripZeros(before1)
  }

  function Format(x: Float, d: nat): string
    requires x.bits != []
  {
    Assemble(if x.isNegative then "-" else "", Digits(WholePart(x)), FractionDigits(x), d)
  }

  // Parsing

  /** The parts before and after the decimal point if hexadecimal digits follow:
      there must be either no decimal digits or all of them. */
  function SplitExactly(s: string, d: nat): Option<(string, string)> {
    var pos := FixedNum.IndexOf(s, '.');
    if d == 0 then
      if pos < |s| then None else Some((s, ""))
    else if pos == |s| then
      if s != "" then None else Some(("", ""))
    else
      var s0, s1 := s[..pos], s[pos + 1..];
      if s0 == "" && s1 == "" then None
      else if |s1| != d then None
      else Some((s0, s1))
  }

  function Combine(parts: (string, string), after: string, d: nat): Option<Dyadic> {
    var hex := if after == "" then "0" else after;
    if !AreDigits(parts.0) || !AreDigits(parts.1) || !AreHexDigits(hex) then None
    else
      var k := 4 * |hex|;
      Some(Dyadic(FixedNum.Magnitude(parts.0, parts.1, d) * Pow2(k) + ValueOfHex(hex), k))
  }

  function ParseUnsigned(s: string, d: nat): Option<Dyadic> {
    var pos := FixedNum.IndexOf(s, ':');
    if pos == |s| then
      var parts := FixedNum.SplitParts(s, d);
      if parts.None? then None else Combine(parts.value, "", d)
    else
      var t, after := s[..pos], s[pos + 1..];
      if t == "" && after == "" then None
      else
        var parts := SplitExactly(t, d);
        if parts.None? then None else Combine(parts.value, after, d)
  }

  /** Zero doesn't have a sign. */
  function Negate(x: Option<Dyadic>, isNegative: bool): Option<Dyadic> {
    if x.None? then None
    else if x.value.num == 0 then Some(Dyadic(0, 0))
    else Some(Dyadic(Signed(isNegative, x.value.num), x.value.shift))
  }

  function Parse(s: string, d: nat): Option<Dyadic> {
    var isNegative := s != "" && s[0] == '-';
    Negate(ParseUnsigned(if isNegative then s[1..] else s, d), isNegative)
  }

  /** The string is accepted and has the given value. */
  ghost predicate Denotes(s: string, d: nat, v: Dyadic) {
    Parse(s, d).Some? && SameValue(Parse(s, d).value, v)
  }

  // The bits keep their value

  ghost predicate SplitsInto(x: Float, p: Parts)
    requires x.bits != []
  {
    var m := Magnitude(x);
    && m.shift == |p.after|
    && m.num == ValueOfBits(p.before) * Pow2(|p.after|) + ValueOfBits(p.after)
  }

  lemma SplitKeepsValue(x: Float)
    requires x.bits != []
    ensures SplitsInto(x, SplitBits(x.bits, x.exp))
  {
    hide Pow2, ValueOfBits, ZeroBits;
    if x.exp < 0 {
      PrependZeroBits(-(x.exp + 1), x.bits);
      NoBits();
    } else {
      SplitInside(x);
    }
  }

  lemma NoBits()
    ensures ValueOfBits([]) == 0 && Pow2(0) == 1
  {
  }

  lemma SplitInside(x: Float)
    requires x.bits != [] && x.exp >= 0
    ensures SplitsInto(x, SplitBits(x.bits, x.exp))
  {
    hide Pow2, ValueOfBits, ZeroBits;
    var n := |x.bits|;
    var p := SplitBits(x.bits, x.exp);
    NoBits();
    if n < x.exp + 1 {
      AppendZeroBits(x.bits, x.exp + 1 - n);
      assert p.after == [] && p.before == x.bits + ZeroBits(x.exp + 1 - n);
    } else {
      ValueOfBitSum(p.before, p.after);
      assert x.bits == p.before + p.after;
    }
  }

  /** Zeros at the end of a fraction don't matter. */
  lemma SameFraction(bits: seq<Bit>, j: nat, k: nat)
    ensures
      var a, b := bits + ZeroBits(j), bits + ZeroBits(k);
      ValueOfBits(a) * Pow2(|b|) == ValueOfBits(b) * Pow2(|a|)
  {
    hide Pow2, ValueOfBits;
    AppendZeroBits(bits, j);
    AppendZeroBits(bits, k);
    PowerOfSum(|bits|, j);
    PowerOfSum(|bits|, k);
    Rearranged(ValueOfBits(bits), Pow2(|bits|), Pow2(j), Pow2(k));
  }

  lemma Rearranged(v: nat, p: nat, a: nat, b: nat)
    ensures (v * a) * (p * b) == (v * b) * (p * a)
  {
    assert (v * a) * (p * b) == v * (a * (p * b)) == v * ((a * p) * b);
    assert (v * b) * (p * a) == v * (b * (p * a)) == v * ((a * p) * b);
  }

  lemma LastBitCounts(bits: seq<Bit>)
    requires bits != [] && bits[|bits| - 1] == 1
    ensures ValueOfBits(bits) > 0
  {
  }

  /** The fraction is left out if and only if it is zero. */
  lemma FractionIsOmitted(x: Float)
    requires x.bits != []
    ensures FractionDigits(x) == "" <==> ValueOfBits(SplitBits(x.bits, x.exp).after) == 0
  {
    hide Pow2, ValueOfBits, SplitBits;
    var after := SplitBits(x.bits, x.exp).after;
    var t := StripBits(after);
    AppendZeroBits(t, |after| - |t|);
    if t == [] {
      NoBits();
      assert FillBits(t) == [];
    } else {
      LastBitCounts(t);
      PositiveProduct(ValueOfBits(t), Pow2(|after| - |t|));
    }
  }

  lemma PositiveProduct(a: nat, b: nat)
    requires a > 0 && b > 0
    ensures a * b > 0
  {
  }

  /** What is read back for some hexadecimal digits. */
  function HexRead(after: string): string {
    if after == "" then "0" else after
  }

  /** The hexadecimal digits have the value of the bits after the point. */
  lemma FractionIsKept(x: Float)
    requires x.bits != []
    ensures
      var after := SplitBits(x.bits, x.exp).after;
      var hex := HexRead(FractionDigits(x));
      AreHexDigits(hex) && ValueOfHex(hex) * Pow2(|after|) == ValueOfBits(after) * Pow2(4 * |hex|)
  {
    hide Pow2, ValueOfBits, SplitBits, ValueOfHex, HexOf;
    FractionIsOmitted(x);
    var after := SplitBits(x.bits, x.exp).after;
    if FractionDigits(x) == "" {
      ValueOfHexZero();
    } else {
      var t := StripBits(after);
      HexHasValueOfBits(FillBits(t));
      SameFraction(t, |after| - |t|, Missing(|t|));
    }
  }

  lemma ValueOfHexZero()
    ensures ValueOfHex("0") == 0
  {
    assert "0"[..0] == "";
  }

  /** A number put together from an integer and hexadecimal digits. */
  function Joined(w: nat, after: string): Dyadic
    requires AreHexDigits(after)
  {
    var hex := HexRead(after);
    Dyadic(w * Pow2(4 * |hex|) + ValueOfHex(hex), 4 * |hex|)
  }

  lemma JoinedKeepsValue(x: Float)
    requires x.bits != []
    ensures SameValue(Joined(WholePart(x), FractionDigits(x)), Magnitude(x))
  {
    hide Pow2, ValueOfBits, SplitBits, ValueOfHex, FractionDigits, Magnitude;
    SplitKeepsValue(x);
    FractionIsKept(x);
    var p := SplitBits(x.bits, x.exp);
    var hex := HexRead(FractionDigits(x));
    AddWhole(WholePart(x), ValueOfHex(hex), ValueOfBits(p.after), Pow2(|p.after|), Pow2(4 * |hex|));
  }

  lemma AddWhole(w: nat, h: nat, v: nat, f: nat, k: nat)
    requires h * f == v * k
    ensures (w * k + h) * f == (w * f + v) * k
  {
    assert (w * k) * f == (w * f) * k;
  }

  // Numbers without hexadecimal digits

  /** Without a fraction, the notation is just the fixed-point notation. */
  lemma WithoutFraction(isNegative: bool, w: nat, d: nat)
    ensures Assemble(if isNegative then "-" else "", Digits(w), "", d) == FixedNum.Format(Signed(isNegative, w), d)
  {
    hide Digits, FixedNum.Pad, FixedNum.StripZeros, FixedNum.Format, FixedNum.Compose;
    NoLeadingZero(w);
    if w == 0 {
      FixedZero(d);
      if d > 0 {
        PaddedZero(d);
      }
    } else {
      FormatSigned(isNegative, w, d);
      if d > 0 {
        var t := FixedNum.Pad(Digits(w), d);
        ComposeSigned(if isNegative then "-" else "", t[..|t| - d], t[|t| - d..]);
      }
    }
  }

  lemma FixedZero(d: nat)
    ensures FixedNum.Format(0, d) == "0"
  {
    if d > 0 {
      FixedNum.ComposeZero(d);
    }
  }

  lemma FormatSigned(isNegative: bool, w: nat, d: nat)
    requires w > 0
    ensures
      var sign := if isNegative then "-" else "";
      var t := FixedNum.Pad(Digits(w), d);
      FixedNum.Format(Signed(isNegative, w), d)
        == if d == 0 then sign + Digits(w) else FixedNum.Compose(sign, t[..|t| - d], t[|t| - d..])
  {
    hide Digits, FixedNum.Pad, FixedNum.Compose;
    NoLeadingZero(w);
  }

  lemma ComposeSigned(sign: string, s0: string, s1: string)
    ensures
      FixedNum.Compose(sign, s0, s1)
        == if FixedNum.StripZeros(s1) == "" then if s0 == "" then "0" else sign + s0
           else sign + s0 + "." + FixedNum.StripZeros(s1)
  {
    hide FixedNum.StripZeros;
  }

  lemma PaddedZero(d: nat)
    requires d > 0
    ensures var t := FixedNum.Pad(Digits(0), d); |t| == d && FixedNum.StripZeros(t) == "" && t[|t| - d..] == t
  {
    FixedNum.StripAll(d);
    var t := FixedNum.Pad(Digits(0), d);
    assert t == FixedNum.Zeros(d);
    assert t[|t| - d..] == t;
  }

  lemma NoColon(x: int, d: nat)
    ensures ':' !in FixedNum.Format(x, d)
  {
    hide FixedNum.Pad, FixedNum.Compose, Digits;
    var m: nat := if x < 0 then 0 - x else x;
    FixedNum.PartsHaveValue(m, d);
    DigitsAreOrdinary(Digits(m));
    var t := FixedNum.Pad(Digits(m), d);
    NoColonComposed(if x < 0 then "-" else "", t[..|t| - d], t[|t| - d..]);
  }

  lemma NoColonComposed(sign: string, s0: string, s1: string)
    requires (sign == "" || sign == "-") && AreDigits(s0) && AreDigits(s1)
    ensures ':' !in FixedNum.Compose(sign, s0, s1)
  {
    DigitsAreOrdinary(s0);
    DigitsAreOrdinary(s1);
  }

  /** Without a colon, exactly the numbers in fixed-point notation are accepted,
      with the same value. */
  lemma FixedIsHybrid(s: string, d: nat)
    requires ':' !in s
    ensures Parse(s, d).Some? <==> FixedNum.Parse(s, d).Some?
    ensures Parse(s, d).Some? ==> SameValue(Parse(s, d).value, Dyadic(FixedNum.Parse(s, d).value, 0))
  {
    hide FixedNum.SplitParts, FixedNum.Magnitude, Pow2, ValueOfHex;
    var u := if s != "" && s[0] == '-' then s[1..] else s;
    FixedNum.NoIndex(u, ':');
    ValueOfHexZero();
    NoBits();
  }

  // Numbers with hexadecimal digits

  lemma SplitAtColon(u: string, after: string, d: nat, parts: (string, string))
    requires ':' !in u && after != "" && SplitExactly(u, d) == Some(parts)
    ensures ParseUnsigned(u + ":" + after, d) == Combine(parts, after, d)
  {
    hide SplitExactly, Combine, FixedNum.IndexOf;
    var t := u + ":" + after;
    FixedNum.IndexAfter(u, ':', after);
    assert t[..|u|] == u && t[|u| + 1..] == after;
  }

  lemma ParseSigned(sign: string, s: string, d: nat)
    requires (sign == "" || sign == "-") && s != "" && s[0] != '-'
    ensures Parse(sign + s, d) == Negate(ParseUnsigned(s, d), sign == "-")
  {
    hide ParseUnsigned, Negate;
    if sign == "-" {
      assert (sign + s)[1..] == s;
    } else {
      assert sign + s == s;
    }
  }

  lemma ParseColon(sign: string, u: string, after: string, d: nat, parts: (string, string))
    requires sign == "" || sign == "-"
    requires ':' !in u && (u != "" ==> u[0] != '-') && after != ""
    requires SplitExactly(u, d) == Some(parts)
    ensures Parse(sign + u + ":" + after, d) == Negate(Combine(parts, after, d), sign == "-")
  {
    hide *;
    SplitAtColon(u, after, d, parts);
    ParseSigned(sign, u + ":" + after, d);
    Associative(sign, u, ":");
    Associative(sign, u + ":", after);
  }

  lemma DigitsAreOrdinary(s: string)
    requires AreDigits(s)
    ensures ':' !in s && '.' !in s && '-' !in s && (s != "" ==> s[0] != '-')
  {
    assert s != "" ==> s[0] in s;
  }

  lemma ParseNoDigits(sign: string, after: string, d: nat)
    requires sign == "" || sign == "-"
    requires after != "" && AreHexDigits(after)
    ensures Parse(sign + ":" + after, d) == Negate(Some(Joined(0, after)), sign == "-")
  {
    hide Parse, Pow2, ValueOfHex, FixedNum.Pow10;
    FixedNum.NoIndex("", '.');
    ParseColon(sign, "", after, d, ("", ""));
    assert sign + "" == sign;
    assert FixedNum.Magnitude("", "", d) == 0 by {
      assert ValueOf("") == 0;
    }
  }

  lemma ParseWithDigits(sign: string, s0: string, s1: string, after: string, d: nat)
    requires sign == "" || sign == "-"
    requires AreDigits(s0) && AreDigits(s1) && |s1| == d > 0
    requires after != "" && AreHexDigits(after)
    ensures Parse(sign + s0 + "." + s1 + ":" + after, d)
         == Negate(Some(Joined(FixedNum.Magnitude(s0, s1, d), after)), sign == "-")
  {
    hide Parse, Pow2, ValueOfHex, FixedNum.Magnitude;
    DigitsAreOrdinary(s0);
    DigitsAreOrdinary(s1);
    var u := s0 + "." + s1;
    SplitDecimals(s0, s1, d);
    ParseColon(sign, u, after, d, (s0, s1));
    Associative(sign, s0, ".");
    Associative(sign, s0 + ".", s1);
  }

  lemma SplitDecimals(s0: string, s1: string, d: nat)
    requires AreDigits(s0) && |s1| == d > 0
    ensures SplitExactly(s0 + "." + s1, d) == Some((s0, s1))
  {
    hide FixedNum.IndexOf;
    DigitsAreOrdinary(s0);
    var u := s0 + "." + s1;
    FixedNum.IndexAfter(s0, '.', s1);
    assert u[..|s0|] == s0 && u[|s0| + 1..] == s1;
  }

  lemma ParseInteger(sign: string, w: nat, after: string)
    requires sign == "" || sign == "-"
    requires after != "" && AreHexDigits(after)
    ensures Parse(sign + Digits(w) + ":" + after, 0) == Negate(Some(Joined(w, after)), sign == "-")
  {
    hide Parse, Pow2, ValueOfHex, ValueOf, Digits;
    DigitsAreOrdinary(Digits(w));
    FixedNum.NoIndex(Digits(w), '.');
    ParseColon(sign, Digits(w), after, 0, (Digits(w), ""));
    ValueOfDigits(w);
    FixedNum.ParseWhole(Digits(w), 0);
    assert FixedNum.Magnitude(Digits(w), "", 0) == w by {
      assert ValueOf("") == 0;
      assert FixedNum.Pow10(0) == 1;
    }
  }

  /** Parsing what has been assembled gives the assembled number. */
  lemma ParseAssembled(isNegative: bool, w: nat, after: string, d: nat)
    requires after != "" && AreHexDigits(after)
    ensures
      var sign := if isNegative then "-" else "";
      Parse(Assemble(sign, Digits(w), after, d), d) == Negate(Some(Joined(w, after)), isNegative)
  {
    hide *;
    var sign := if isNegative then "-" else "";
    if d == 0 {
      NoLeadingZero(w);
      AssembleWhole(sign, Digits(w), after);
      ParseNoDigits(sign, after, d);
      ParseInteger(sign, w, after);
    } else {
      FixedNum.PartsHaveValue(w, d);
      var t := FixedNum.Pad(Digits(w), d);
      var s0, s1 := t[..|t| - d], t[|t| - d..];
      AssembleParts(sign, Digits(w), after, d);
      if FixedNum.StripZeros(s1) == "" && s0 == "" {
        NoMagnitude(s1, d);
        ParseNoDigits(sign, after, d);
      } else {
        ParseWithDigits(sign, s0, s1, after, d);
      }
    }
  }

  lemma AssembleWhole(sign: string, before: string, after: string)
    requires after != ""
    ensures Assemble(sign, before, after, 0) == if before == "0" then sign + ":" + after else sign + before + ":" + after
  {
  }

  lemma AssembleParts(sign: string, before: string, after: string, d: nat)
    requires after != "" && d > 0
    ensures
      var t := FixedNum.Pad(before, d);
      var s0, s1 := t[..|t| - d], t[|t| - d..];
      Assemble(sign, before, after, d)
        == if FixedNum.StripZeros(s1) == "" && s0 == "" then sign + ":" + after else sign + s0 + "." + s1 + ":" + after
  {
    hide FixedNum.Pad, FixedNum.StripZeros;
  }

  lemma NoMagnitude(s: string, d: nat)
    requires AreDigits(s) && |s| == d && FixedNum.StripZeros(s) == ""
    ensures FixedNum.Magnitude("", s, d) == 0
  {
    FixedNum.ZeroFraction(s, d);
    assert ValueOf("") == 0;
  }

  // Round trip

  /** Parsing gives the number which has been formatted, for every number and
      every number of decimals. */
  lemma ParseReturns(x: Float, d: nat)
    requires x.bits != []
    ensures Denotes(Format(x, d), d, Value(x))
  {
    hide Denotes, Joined, SameValue, Parse, WholePart, FractionDigits, Assemble, Magnitude;
    var w, after := WholePart(x), FractionDigits(x);
    JoinedKeepsValue(x);
    if after == "" {
      WholeReturns(x.isNegative, w, Magnitude(x), d);
    } else {
      FractionReturns(x.isNegative, w, after, Magnitude(x), d);
    }
  }

  lemma WholeReturns(isNegative: bool, w: nat, m: Dyadic, d: nat)
    requires SameValue(Joined(w, ""), m)
    ensures Denotes(Assemble(if isNegative then "-" else "", Digits(w), "", d), d,
                    Dyadic(Signed(isNegative, m.num), m.shift))
  {
    hide Parse, Digits, Assemble, Joined, Pow2, FixedNum.Format, FixedNum.Parse;
    var v := Signed(isNegative, w);
    WithoutFraction(isNegative, w, d);
    var s := FixedNum.Format(v, d);
    NoColon(v, d);
    FixedNum.ParseReturns(v, d);
    FixedIsHybrid(s, d);
    JoinedWhole(w);
    WholeIsMagnitude(w, m);
    SignedSame(Parse(s, d).value, Dyadic(v, 0), Dyadic(Signed(isNegative, m.num), m.shift));
  }

  lemma FractionReturns(isNegative: bool, w: nat, after: string, m: Dyadic, d: nat)
    requires after != "" && AreHexDigits(after) && SameValue(Joined(w, after), m)
    ensures Denotes(Assemble(if isNegative then "-" else "", Digits(w), after, d), d,
                    Dyadic(Signed(isNegative, m.num), m.shift))
  {
    hide Parse, Digits, Assemble, Joined, SameValue;
    ParseAssembled(isNegative, w, after, d);
    NegateKeepsValue(Joined(w, after), m, isNegative);
  }

  lemma JoinedWhole(w: nat)
    ensures Joined(w, "") == Dyadic(16 * w, 4)
  {
    ValueOfHexZero();
    assert Pow2(4) == 16;
  }

  lemma WholeIsMagnitude(w: nat, m: Dyadic)
    requires SameValue(Dyadic(16 * w, 4), m)
    ensures m.num == w * Pow2(m.shift)
  {
    assert Pow2(4) == 16;
  }

  lemma SignedSame(a: Dyadic, b: Dyadic, c: Dyadic)
    requires SameValue(a, b) && b.shift == 0 && c.num == b.num * Pow2(c.shift)
    ensures SameValue(a, c)
  {
    hide Pow2;
    NoBits();
    assert a.num * 1 == b.num * Pow2(a.shift);
    assert (b.num * Pow2(a.shift)) * Pow2(c.shift) == (b.num * Pow2(c.shift)) * Pow2(a.shift);
  }

  lemma NegateKeepsValue(a: Dyadic, m: Dyadic, isNegative: bool)
    requires SameValue(a, m)
    ensures SameValue(Negate(Some(a), isNegative).value, Dyadic(Signed(isNegative, m.num), m.shift))
  {
    hide Pow2;
    NoBits();
    var p, q := Pow2(a.shift), Pow2(m.shift);
    assert a.num * q == m.num * p;
    if a.num == 0 {
      ZeroProduct(m.num, p);
    } else {
      assert (0 - a.num) * q == 0 - a.num * q;
      assert (0 - m.num) * p == 0 - m.num * p;
    }
  }

  lemma ZeroProduct(a: int, b: nat)
    requires a * b == 0 && b > 0
    ensures a == 0
  {
  }

  // Whole numbers

  lemma DivideWhole(w: nat, p: nat, n: nat, v: nat)
    requires v * p == w * p + n < w * p + p
    ensures v == w && n == 0
  {
    var k := v - w;
    assert k * p == n by {
      assert (v - w) * p == v * p - w * p;
    }
    MultipleInRange(k, p);
  }

  lemma MultipleInRange(k: int, p: nat)
    requires 0 <= k * p < p
    ensures k == 0
  {
    MultipleIsLarge(k, p);
    MultipleIsLarge(0 - k, p);
  }

  lemma MultipleIsLarge(k: int, p: nat)
    ensures k > 0 ==> k * p >= p
  {
    if k > 0 {
      assert k * p == (k - 1) * p + p;
    }
  }

  /** Integers are written in the same way as in the fixed-point notation. */
  lemma WholeNumbersAgree(x: Float, v: int, d: nat)
    requires x.bits != [] && SameValue(Value(x), Dyadic(v, 0))
    ensures Format(x, d) == FixedNum.Format(v, d)
  {
    hide Pow2, ValueOfBits, SplitBits, Magnitude, FractionDigits, Assemble, FixedNum.Format;
    NoBits();
    SplitKeepsValue(x);
    FractionIsOmitted(x);
    var p := SplitBits(x.bits, x.exp);
    var q := Pow2(|p.after|);
    var w := WholePart(x);
    BitsAreLess(p.after);
    SignOfWhole(if x.isNegative then 0 - v else v, q, w * q + ValueOfBits(p.after));
    DivideWhole(w, q, ValueOfBits(p.after), if x.isNegative then 0 - v else v);
    WithoutFraction(x.isNegative, w, d);
  }

  lemma SignOfWhole(v: int, p: nat, n: nat)
    requires v * p == n && p > 0
    ensures v >= 0
  {
  }

  /** Zero is written as a single zero, without a sign. */
  lemma ZeroIsZero(x: Float, d: nat)
    requires x.bits != []
    ensures Value(x).num == 0 <==> Format(x, d) == "0"
  {
    hide Pow2, Magnitude, Format, Parse, FixedNum.Format, Value;
    NoBits();
    if Value(x).num == 0 {
      WholeNumbersAgree(x, 0, d);
      FixedZero(d);
    }
    if Format(x, d) == "0" {
      ParseReturns(x, d);
      ZeroDenotesZero(Value(x), d);
    }
  }

  lemma ZeroDenotesZero(v: Dyadic, d: nat)
    requires Denotes("0", d, v)
    ensures v.num == 0
  {
    hide Parse, FixedNum.Parse, Pow2;
    FixedNum.ParseZero(d);
    FixedIsHybrid("0", d);
    NoBits();
    var x := Parse("0", d).value;
    ZeroProduct(x.num, Pow2(0));
    ZeroProduct(v.num, Pow2(x.shift));
  }

  predicate HasMinus(s: string) {
    s != "" && s[0] == '-'
  }

  /** Only negative numbers are written with a sign, so no output denotes a
      negative zero. */
  lemma NoSignedZero(x: Float, d: nat)
    requires x.bits != []
    ensures HasMinus(Format(x, d)) <==> Value(x).num < 0
  {
    hide Value, Format;
    ZeroIsZero(x, d);
    SignIsWritten(x, d);
    ValueHasSign(x);
  }

  lemma ValueHasSign(x: Float)
    requires x.bits != []
    ensures Value(x).num < 0 <==> Value(x).num != 0 && x.isNegative
  {
    hide Pow2, ValueOfBits;
    var e := x.exp - (|x.bits| - 1);
    if e >= 0 && ValueOfBits(x.bits) > 0 {
      PositiveProduct(ValueOfBits(x.bits), Pow2(e));
    }
  }

  predicate HasSign(s: string, isNegative: bool) {
    s == "0" || (HasMinus(s) <==> isNegative)
  }

  lemma SignBefore(isNegative: bool, rest: string)
    requires rest != "" && rest[0] != '-'
    ensures HasSign((if isNegative then "-" else "") + rest, isNegative)
  {
    var s := (if isNegative then "-" else "") + rest;
    assert s[0] == if isNegative then '-' else rest[0];
  }

  lemma SignWithFraction(isNegative: bool, w: nat, after: string, d: nat)
    requires after != ""
    ensures HasSign(Assemble(if isNegative then "-" else "", Digits(w), after, d), isNegative)
  {
    hide HasSign, Assemble, Digits, FixedNum.Pad, FixedNum.StripZeros, FixedNum.Magnitude;
    var sign := if isNegative then "-" else "";
    SignBefore(isNegative, ":" + after);
    Associative(sign, ":", after);
    DigitsAreOrdinary(Digits(w));
    if d == 0 {
      AssembleWhole(sign, Digits(w), after);
      SignBefore(isNegative, Digits(w) + ":" + after);
      Associative(sign, Digits(w), ":");
      Associative(sign, Digits(w) + ":", after);
    } else {
      FixedNum.PartsHaveValue(w, d);
      AssembleParts(sign, Digits(w), after, d);
      var t := FixedNum.Pad(Digits(w), d);
      SignBeforeParts(isNegative, t[..|t| - d], t[|t| - d..] + ":" + after);
      SumOfParts(sign, t[..|t| - d], t[|t| - d..], after);
    }
  }

  lemma SignBeforeParts(isNegative: bool, s0: string, rest: string)
    requires AreDigits(s0)
    ensures HasSign((if isNegative then "-" else "") + s0 + "." + rest, isNegative)
  {
    hide HasSign;
    DigitsAreOrdinary(s0);
    SignBefore(isNegative, s0 + "." + rest);
    Associative(if isNegative then "-" else "", s0, ".");
    Associative(if isNegative then "-" else "", s0 + ".", rest);
  }

  lemma SumOfParts(sign: string, s0: string, s1: string, after: string)
    ensures sign + s0 + "." + s1 + ":" + after == sign + s0 + "." + (s1 + ":" + after)
  {
  }

  lemma SignWithoutFraction(isNegative: bool, w: nat, d: nat)
    ensures HasSign(Assemble(if isNegative then "-" else "", Digits(w), "", d), isNegative)
  {
    hide HasSign, Digits, FixedNum.Pad, FixedNum.StripZeros, FixedNum.Magnitude;
    ZeroIsSignless(isNegative);
    DigitsAreOrdinary(Digits(w));
    SignBefore(isNegative, Digits(w));
    if d > 0 {
      FixedNum.PartsHaveValue(w, d);
      var t := FixedNum.Pad(Digits(w), d);
      var s0, s1 := t[..|t| - d], t[|t| - d..];
      DigitsAreOrdinary(s0);
      if s0 != "" {
        SignBefore(isNegative, s0);
      }
      SignBeforeParts(isNegative, s0, FixedNum.StripZeros(s1));
    }
  }

  lemma ZeroIsSignless(isNegative: bool)
    ensures HasSign("0", isNegative)
  {
  }

  lemma SignIsWritten(x: Float, d: nat)
    requires x.bits != []
    ensures HasSign(Format(x, d), x.isNegative)
  {
    hide HasSign, Assemble, Digits, WholePart, FractionDigits;
    if FractionDigits(x) == "" {
      SignWithoutFraction(x.isNegative, WholePart(x), d);
    } else {
      SignWithFraction(x.isNegative, WholePart(x), FractionDigits(x), d);
    }
  }
}
