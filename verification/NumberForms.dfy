/** Which strings are numbers, and of which value: exactly those put together from
    a sign, digits, a decimal point and a colon in the right way. */
module NumberForms {
  import opened Wrappers
  import opened Sequences
  import opened Decimals
  import opened Bits
  import FixedNum
  import HybridNum

  predicate IsSign(sign: string) {
    sign == "" || sign == "-"
  }

  function WithSign(sign: string, m: nat): int {
    if sign == "-" then 0 - m else m
  }

  // Fixed-point numbers

  /** Digits with or without a decimal point, after which there may be as many
      digits as there are decimals.  Missing decimals are zeros. */
  ghost predicate IsFixedForm(s: string, d: nat, sign: string, s0: string, s1: string, hasPoint: bool) {
    && IsSign(sign) && AreDigits(s0) && AreDigits(s1) && (s0 != "" || s1 != "")
    && if hasPoint then d > 0 && |s1| <= d && s == sign + (s0 + "." + s1) else s1 == "" && s == sign + s0
  }

  function FixedValue(d: nat, sign: string, s0: string, s1: string): int
    requires AreDigits(s0) && AreDigits(s1) && |s1| <= d
  {
    WithSign(sign, ValueOf(s0 + s1 + FixedNum.Zeros(d - |s1|)))
  }

  lemma MagnitudeIsValue(s0: string, s1: string, d: nat)
    requires AreDigits(s0) && AreDigits(s1) && |s1| <= d
    ensures
      var t := s1 + FixedNum.Zeros(d - |s1|);
      && AreDigits(t) && s0 + t == s0 + s1 + FixedNum.Zeros(d - |s1|)
      && AreDigits(s0 + t) && FixedNum.Magnitude(s0, t, d) == ValueOf(s0 + t)
    ensures |s1| == 0 ==> FixedNum.Magnitude(s0, "", d) == ValueOf(s0 + s1 + FixedNum.Zeros(d - |s1|))
  {
    hide ValueOf, FixedNum.Zeros, FixedNum.Pow10;
    var z := FixedNum.Zeros(d - |s1|);
    Associative(s0, s1, z);
    FixedNum.ValueOfZeros(d - |s1|);
    FixedNum.ValueOfSum(s0, s1 + z);
    if |s1| == 0 {
      assert s1 + z == z;
      NothingHasNoValue();
    }
  }

  lemma NothingHasNoValue()
    ensures ValueOf("") == 0
  {
  }

  lemma UnsignedForm(u: string, d: nat, s0: string, s1: string, hasPoint: bool)
    requires IsFixedForm(u, d, "", s0, s1, hasPoint)
    ensures u != "" && u[0] != '-' && |s1| <= d
    ensures FixedNum.ParseUnsigned(u, d) == Some(ValueOf(s0 + s1 + FixedNum.Zeros(d - |s1|)))
  {
    hide ValueOf, FixedNum.Zeros, FixedNum.Pow10, FixedNum.Magnitude, FixedNum.IndexOf;
    MagnitudeIsValue(s0, s1, d);
    if hasPoint {
      assert u == s0 + "." + s1;
      FixedNum.DotAfterDigits(s0, s1);
      assert u[..|s0|] == s0 && u[|s0| + 1..] == s1;
      if s0 != "" {
        assert s0[0] in s0;
      }
    } else {
      assert u == s0 && u[0] in s0;
      FixedNum.AbsentDot(s0);
    }
  }

  /** Every such string is read with the value of its digits. */
  lemma FixedFormIsRead(s: string, d: nat, sign: string, s0: string, s1: string, hasPoint: bool)
    requires IsFixedForm(s, d, sign, s0, s1, hasPoint)
    ensures |s1| <= d && FixedNum.Parse(s, d) == Some(FixedValue(d, sign, s0, s1))
  {
    hide ValueOf, FixedNum.Zeros, FixedNum.ParseUnsigned;
    var u := if hasPoint then s0 + "." + s1 else s0;
    assert "" + u == u;
    UnsignedForm(u, d, s0, s1, hasPoint);
    FixedNum.ParseSigned(sign, u, d);
  }

  /** Exactly these strings are numbers. */
  lemma FixedAcceptedExactlyIf(s: string, d: nat)
    ensures FixedNum.Parse(s, d).Some? <==>
      exists sign, s0, s1, hasPoint :: IsFixedForm(s, d, sign, s0, s1, hasPoint)
  {
    hide FixedNum.Parse, IsFixedForm;
    if FixedNum.Parse(s, d).Some? {
      var sign, s0, s1, hasPoint := FixedHasForm(s, d);
    }
    if sign, s0, s1, hasPoint :| IsFixedForm(s, d, sign, s0, s1, hasPoint) {
      FixedFormIsRead(s, d, sign, s0, s1, hasPoint);
    }
  }

  lemma FixedHasForm(s: string, d: nat) returns (sign: string, s0: string, s1: string, hasPoint: bool)
    requires FixedNum.Parse(s, d).Some?
    ensures IsFixedForm(s, d, sign, s0, s1, hasPoint)
  {
    hide FixedNum.ParseUnsigned, AreDigits;
    sign := if s != "" && s[0] == '-' then "-" else "";
    var u := if s != "" && s[0] == '-' then s[1..] else s;
    assert s == sign + u;
    s0, s1, hasPoint := UnsignedFixedForm(u, d);
  }

  lemma UnsignedFixedForm(u: string, d: nat) returns (s0: string, s1: string, hasPoint: bool)
    requires FixedNum.ParseUnsigned(u, d).Some?
    ensures AreDigits(s0) && AreDigits(s1) && (s0 != "" || s1 != "")
    ensures if hasPoint then d > 0 && |s1| <= d && u == s0 + "." + s1 else s1 == "" && u == s0
  {
    hide FixedNum.Zeros, FixedNum.Magnitude, FixedNum.IndexOf, AreDigits;
    var pos := FixedNum.IndexOf(u, '.');
    hasPoint := pos < |u|;
    if hasPoint {
      s0, s1 := u[..pos], u[pos + 1..];
      assert u == s0 + "." + s1;
      FilledDigits(s1, d);
    } else {
      s0, s1 := u, "";
      NothingIsDigits();
    }
  }

  lemma NothingIsDigits()
    ensures AreDigits("")
  {
  }

  lemma FilledDigits(s: string, d: nat)
    requires |s| <= d && AreDigits(s + FixedNum.Zeros(d - |s|))
    ensures AreDigits(s)
  {
    assert forall c :: c in s ==> c in s + FixedNum.Zeros(d - |s|);
  }

  // Hybrid numbers

  /** Digits, a colon and hexadecimal digits: if there is a decimal point, there are
      all decimals, and without one there are either none at all or the format has
      got none. */
  ghost predicate IsHybridForm(s: string, d: nat, sign: string, s0: string, s1: string, after: string) {
    && IsSign(sign) && AreDigits(s0) && AreDigits(s1) && AreHexDigits(after)
    && s == sign + (Whole(s0, s1, d) + ":" + after)
    && (if d == 0 then s1 == "" else |s1| == d || (s0 == "" && s1 == ""))
    && (s0 != "" || s1 != "" || after != "")
  }

  /** What is before the colon. */
  function Whole(s0: string, s1: string, d: nat): string {
    if d == 0 || |s1| < d then s0 else s0 + "." + s1
  }

  function HybridValue(sign: string, s0: string, s1: string, after: string): HybridNum.Dyadic
    requires AreDigits(s0 + s1) && AreHexDigits(after)
  {
    var k := 4 * |after|;
    HybridNum.Dyadic(WithSign(sign, ValueOf(s0 + s1) * Pow2(k) + ValueOfHex(after)), k)
  }

  lemma WholeIsSplit(s0: string, s1: string, d: nat)
    requires AreDigits(s0) && AreDigits(s1)
    requires if d == 0 then s1 == "" else |s1| == d || (s0 == "" && s1 == "")
    ensures HybridNum.SplitExactly(Whole(s0, s1, d), d) == Some((s0, s1))
    ensures ':' !in Whole(s0, s1, d) && (Whole(s0, s1, d) != "" ==> Whole(s0, s1, d)[0] != '-')
    ensures Whole(s0, s1, d) == "" <==> s0 == "" && s1 == ""
  {
    hide FixedNum.IndexOf;
    HybridNum.DigitsAreOrdinary(s0);
    HybridNum.DigitsAreOrdinary(s1);
    if d > 0 && |s1| == d {
      HybridNum.SplitDecimals(s0, s1, d);
    } else {
      FixedNum.NoIndex(s0, '.');
    }
  }

  lemma CombinedValue(s0: string, s1: string, after: string, d: nat)
    requires AreDigits(s0) && AreDigits(s1) && AreHexDigits(after)
    requires if d == 0 then s1 == "" else |s1| == d || (s0 == "" && s1 == "")
    ensures AreDigits(s0 + s1)
    ensures
      var c := HybridNum.Combine((s0, s1), after, d);
      c.Some? && HybridNum.SameValue(c.value, HybridValue("", s0, s1, after))
  {
    hide ValueOf, ValueOfHex, Pow2, FixedNum.Pow10, FixedNum.Zeros;
    FixedNum.ValueOfSum(s0, s1);
    NothingHasNoValue();
    WholeValue(s0, s1, d);
    if after == "" {
      HybridNum.ValueOfHexZero();
      NoHexDigits();
    }
  }

  lemma WholeValue(s0: string, s1: string, d: nat)
    requires AreDigits(s0) && AreDigits(s1)
    requires if d == 0 then s1 == "" else |s1| == d || (s0 == "" && s1 == "")
    ensures AreDigits(s0 + s1) && FixedNum.Magnitude(s0, s1, d) == ValueOf(s0 + s1)
  {
    hide ValueOf, FixedNum.Pow10;
    FixedNum.ValueOfSum(s0, s1);
    NothingHasNoValue();
    if |s1| != d {
      assert s0 + s1 == "";
    }
  }

  lemma NoHexDigits()
    ensures ValueOfHex("") == 0 && Pow2(0) == 1
  {
  }

  /** Every such string is read with the value of its digits: hexadecimal digits
      count after the decimals. */
  lemma HybridFormIsRead(s: string, d: nat, sign: string, s0: string, s1: string, after: string)
    requires IsHybridForm(s, d, sign, s0, s1, after)
    ensures AreDigits(s0 + s1) && HybridNum.Parse(s, d).Some?
    ensures HybridNum.SameValue(HybridNum.Parse(s, d).value, HybridValue(sign, s0, s1, after))
  {
    hide ValueOf, ValueOfHex, Pow2, FixedNum.Magnitude, HybridNum.Combine, HybridNum.SplitExactly, HybridNum.Parse, Whole;
    var u := Whole(s0, s1, d);
    WholeIsSplit(s0, s1, d);
    CombinedValue(s0, s1, after, d);
    var c := HybridNum.Combine((s0, s1), after, d).value;
    FixedNum.IndexAfter(u, ':', after);
    var t := u + ":" + after;
    assert t[..|u|] == u && t[|u| + 1..] == after;
    HybridNum.ParseSigned(sign, t, d);
    SignedValue(c, HybridValue("", s0, s1, after), sign);
  }

  lemma SignedValue(c: HybridNum.Dyadic, v: HybridNum.Dyadic, sign: string)
    requires IsSign(sign) && HybridNum.SameValue(c, v) && v.num >= 0
    ensures
      var r := HybridNum.Negate(Some(c), sign == "-");
      r.Some? && HybridNum.SameValue(r.value, HybridNum.Dyadic(if sign == "-" then 0 - v.num else v.num, v.shift))
  {
    hide Pow2;
    var p, q := Pow2(v.shift), Pow2(c.shift);
    assert c.num * p == v.num * q;
    if c.num == 0 {
      assert v.num * q == 0;
      if v.num != 0 {
        HybridNum.PositiveProduct(v.num, q);
      }
    } else if sign == "-" {
      assert (0 - c.num) * p == 0 - c.num * p && (0 - v.num) * q == 0 - v.num * q;
    }
  }

  /** Exactly these strings are numbers, apart from those in fixed-point notation,
      which have no colon. */
  lemma HybridAcceptedExactlyIf(s: string, d: nat)
    requires ':' in s
    ensures HybridNum.Parse(s, d).Some? <==>
      exists sign, s0, s1, after :: IsHybridForm(s, d, sign, s0, s1, after)
  {
    hide HybridNum.Parse, IsHybridForm;
    if HybridNum.Parse(s, d).Some? {
      var sign, s0, s1, after := AcceptedHasForm(s, d);
    }
    if sign, s0, s1, after :| IsHybridForm(s, d, sign, s0, s1, after) {
      HybridFormIsRead(s, d, sign, s0, s1, after);
    }
  }

  lemma AcceptedHasForm(s: string, d: nat) returns (sign: string, s0: string, s1: string, after: string)
    requires ':' in s && HybridNum.Parse(s, d).Some?
    ensures IsHybridForm(s, d, sign, s0, s1, after)
  {
    hide HybridNum.ParseUnsigned, IsHybridForm;
    sign := if s[0] == '-' then "-" else "";
    var u := if s[0] == '-' then s[1..] else s;
    assert s == sign + u;
    s0, s1, after := UnsignedHasForm(u, d);
    SignedForm(u, d, sign, s0, s1, after);
  }

  lemma SignedForm(u: string, d: nat, sign: string, s0: string, s1: string, after: string)
    requires IsHybridForm(u, d, "", s0, s1, after) && IsSign(sign)
    ensures IsHybridForm(sign + u, d, sign, s0, s1, after)
  {
    hide AreDigits, AreHexDigits, Whole;
    var t := Whole(s0, s1, d) + ":" + after;
    assert "" + t == t;
  }

  lemma UnsignedHasForm(u: string, d: nat) returns (s0: string, s1: string, after: string)
    requires ':' in u && HybridNum.ParseUnsigned(u, d).Some?
    ensures IsHybridForm(u, d, "", s0, s1, after)
  {
    hide FixedNum.IndexOf, HybridNum.Combine, HybridNum.SplitExactly, Whole, AreDigits, AreHexDigits;
    var pos := FixedNum.IndexOf(u, ':');
    ColonIsFound(u, pos);
    var t := u[..pos];
    after := u[pos + 1..];
    assert u == t + ":" + after && "" + u == u;
    var parts := HybridNum.SplitExactly(t, d);
    PartsOfWhole(t, d);
    CombinedDigits(parts.value, after, d);
    s0, s1 := parts.value.0, parts.value.1;
    EmptyWhole(s0, s1, d);
  }

  lemma EmptyWhole(s0: string, s1: string, d: nat)
    requires if d == 0 then s1 == "" else |s1| == d || (s0 == "" && s1 == "")
    ensures Whole(s0, s1, d) == "" <==> s0 == "" && s1 == ""
  {
  }

  lemma CombinedDigits(parts: (string, string), after: string, d: nat)
    requires HybridNum.Combine(parts, after, d).Some?
    ensures AreDigits(parts.0) && AreDigits(parts.1) && AreHexDigits(after)
  {
    hide FixedNum.Magnitude, ValueOfHex, Pow2;
  }

  lemma ColonIsFound(u: string, pos: nat)
    requires ':' in u && pos <= |u| && ':' !in u[..pos]
    ensures pos < |u|
  {
    assert u[..|u|] == u;
  }

  lemma PartsOfWhole(t: string, d: nat)
    requires HybridNum.SplitExactly(t, d).Some?
    ensures
      var p := HybridNum.SplitExactly(t, d).value;
      && t == Whole(p.0, p.1, d)
      && (if d == 0 then p.1 == "" else |p.1| == d || (p.0 == "" && p.1 == ""))
  {
    hide FixedNum.IndexOf;
  }

  /** Zero is read without a sign and without a fraction, however it is written. */
  lemma ZeroIsSignless(s: string, d: nat)
    requires HybridNum.Parse(s, d).Some? && HybridNum.Parse(s, d).value.num == 0
    ensures HybridNum.Parse(s, d).value == HybridNum.Dyadic(0, 0)
  {
    hide HybridNum.ParseUnsigned;
  }

  // What is written

  /** The hexadecimal digits as the code lists them. */
  lemma HexAlphabet(v: nat)
    requires v < 16
    ensures HexChar(v) == "0123456789abcdef"[v]
  {
  }

  /** There are no zeros at the end of a fraction. */
  lemma FractionIsShort(x: HybridNum.Float)
    requires x.bits != []
    ensures
      var after := HybridNum.FractionDigits(x);
      after != "" ==> after[|after| - 1] != '0'
  {
    hide HybridNum.SplitBits, ZeroBits;
    var bits := HybridNum.StripBits(HybridNum.SplitBits(x.bits, x.exp).after);
    var filled := HybridNum.FillBits(bits);
    if filled != [] {
      FilledIsShort(bits);
    }
  }

  lemma FilledIsShort(bits: seq<Bit>)
    requires bits != [] ==> bits[|bits| - 1] == 1
    ensures
      var s := HexOf(HybridNum.FillBits(bits));
      s != "" ==> s[|s| - 1] != '0'
  {
    var filled := HybridNum.FillBits(bits);
    if bits == [] {
      assert filled == [];
    } else {
      var n := |filled| - 4;
      var last := filled[n..];
      var k := |bits| - 1 - n;
      assert 0 <= k < 4 && last[k] == bits[|bits| - 1];
      assert Nibble(last) > 0;
    }
  }

  /** Before the colon there are no zeros in front, and either no decimals or all
      of them; a whole part which is zero isn't written. */
  lemma HybridIsShort(x: HybridNum.Float, d: nat)
    requires x.bits != [] && HybridNum.FractionDigits(x) != ""
    ensures
      var sign, after := if x.isNegative then "-" else "", HybridNum.FractionDigits(x);
      var w := HybridNum.WholePart(x);
      && (w == 0 ==> HybridNum.Format(x, d) == sign + ":" + after)
      && (w != 0 ==> exists s0, s1 :: IsShortWhole(s0, s1, d, w) && HybridNum.Format(x, d) == sign + Whole(s0, s1, d) + ":" + after)
  {
    hide HybridNum.FractionDigits, HybridNum.WholePart, HybridNum.Assemble, Digits, IsShortWhole, Whole;
    var sign, after := if x.isNegative then "-" else "", HybridNum.FractionDigits(x);
    var w := HybridNum.WholePart(x);
    if w == 0 {
      ZeroIsOmitted(sign, after, d);
    } else {
      var s0, s1 := WholeIsShort(sign, w, after, d);
    }
  }

  lemma ZeroIsOmitted(sign: string, after: string, d: nat)
    requires after != ""
    ensures HybridNum.Assemble(sign, Digits(0), after, d) == sign + ":" + after
  {
    hide HybridNum.Assemble, FixedNum.Pad, FixedNum.StripZeros;
    NoLeadingZero(0);
    if d == 0 {
      HybridNum.AssembleWhole(sign, Digits(0), after);
    } else {
      HybridNum.AssembleParts(sign, Digits(0), after, d);
      PartsAreShort(0, d);
    }
  }

  lemma WholeIsShort(sign: string, w: nat, after: string, d: nat) returns (s0: string, s1: string)
    requires after != "" && w != 0
    ensures IsShortWhole(s0, s1, d, w)
    ensures HybridNum.Assemble(sign, Digits(w), after, d) == sign + Whole(s0, s1, d) + ":" + after
  {
    hide HybridNum.Assemble, FixedNum.Pad, FixedNum.StripZeros, Digits, ValueOf;
    NoLeadingZero(w);
    ValueOfDigits(w);
    if d == 0 {
      HybridNum.AssembleWhole(sign, Digits(w), after);
      s0, s1 := Digits(w), "";
      assert s0 + s1 == s0;
    } else {
      HybridNum.AssembleParts(sign, Digits(w), after, d);
      PartsAreShort(w, d);
      var t := FixedNum.Pad(Digits(w), d);
      s0, s1 := t[..|t| - d], t[|t| - d..];
      Associative(sign, s0 + ".", s1);
      Associative(sign, s0, ".");
    }
  }

  ghost predicate IsShortWhole(s0: string, s1: string, d: nat, w: nat) {
    && AreDigits(s0) && AreDigits(s1) && |s1| == d && (s0 != "" ==> s0[0] != '0')
    && ValueOf(s0 + s1) == w
  }

  lemma PartsAreShort(w: nat, d: nat)
    requires d > 0
    ensures
      var t := FixedNum.Pad(Digits(w), d);
      var s0, s1 := t[..|t| - d], t[|t| - d..];
      && AreDigits(s0) && AreDigits(s1) && |s1| == d && (s0 != "" ==> s0[0] != '0') && ValueOf(s0 + s1) == w
      && (w == 0 <==> FixedNum.StripZeros(s1) == "" && s0 == "")
  {
    var t := FixedNum.Pad(Digits(w), d);
    var s0, s1 := t[..|t| - d], t[|t| - d..];
    FixedNum.PartsHaveValue(w, d);
    FixedNum.NoZeroBefore(w, d);
    WholeValue(s0, s1, d);
    hide FixedNum.Pad, Digits, FixedNum.Magnitude;
    if w == 0 {
      ZeroParts(d);
    } else if s0 == "" && FixedNum.StripZeros(s1) == "" {
      HybridNum.NoMagnitude(s1, d);
    }
  }

  lemma ZeroParts(d: nat)
    requires d > 0
    ensures
      var t := FixedNum.Pad(Digits(0), d);
      t[..|t| - d] == "" && FixedNum.StripZeros(t[|t| - d..]) == ""
  {
    HybridNum.PaddedZero(d);
  }
}
