/** Fixed-point notation: an integer as a decimal number with a certain number
    of decimals. */
module FixedNum {
  import opened Wrappers
  import opened Sequences
  import opened Decimals

  function Pow10(n: nat): (p: nat)
    ensures p > 0
  {
    if n == 0 then 1 else 10 * Pow10(n - 1)
  }

  function Zeros(n: nat): (s: string)
    ensures |s| == n && forall c :: c in s ==> c == '0'
  {
    seq(n, _ => '0')
  }

  /** Position of a character; the length of the string if there is none. */
  function IndexOf(s: string, c: char): (n: nat)
    ensures n <= |s|
    ensures n < |s| ==> s[n] == c
    ensures c !in s[..n]
  {
    if s == "" || s[0] == c then 0 else
      assert s[..1 + IndexOf(s[1..], c)] == [s[0]] + s[1..][..IndexOf(s[1..], c)];
      1 + IndexOf(s[1..], c)
  }

  /** Digits filled up with leading zeros to a certain length. */
  function Pad(s: string, n: nat): (r: string)
    ensures |r| >= n && |r| >= |s|
    ensures AreDigits(s) ==> AreDigits(r)
  {
    if |s| < n then Zeros(n - |s|) + s else s
  }

  /** Without zeros at the end. */
  function StripZeros(s: string): (r: string)
    ensures |r| <= |s| && r == s[..|r|]
    ensures r != "" ==> r[|r| - 1] != '0'
    ensures forall i :: |r| <= i < |s| ==> s[i] == '0'
  {
    if s == "" || s[|s| - 1] != '0' then s else StripZeros(s[..|s| - 1])
  }

  // Formatting

  /** Put digits together, using no more characters than necessary. */
  function Compose(sign: string, s0: string, s1: string): string {
    if StripZeros(s1) == "" then
      if s0 == "" then "0" else sign + s0
    else sign + s0 + "." + StripZeros(s1)
  }

  function Format(x: int, d: nat): string {
    var sign := if x < 0 then "-" else "";
    var s := Digits(if x < 0 then -x else x);
    if d == 0 then
      if s == "0" then "0" else sign + s
    else
      var t := Pad(s, d);
      Compose(sign, t[..|t| - d], t[|t| - d..])
  }

  // Parsing

  /** The parts before and after the decimal point, the latter filled up with
      zeros, if the string has the right form. */
  function SplitParts(s: string, d: nat): Option<(string, string)> {
    var pos := IndexOf(s, '.');
    if s == "" then None
    else if d == 0 then
      if pos < |s| then None else Some((s, ""))
    else if pos == |s| then Some((s, ""))
    else
      var s0, s1 := s[..pos], s[pos + 1..];
      if s0 == "" && s1 == "" then None
      else if |s1| > d then None
      else Some((s0, s1 + Zeros(d - |s1|)))
  }

  function Magnitude(s0: string, s1: string, d: nat): nat
    requires AreDigits(s0) && AreDigits(s1)
  {
    ValueOf(s0) * Pow10(d) + ValueOf(s1)
  }

  /** The value of a number without a sign. */
  function ParseUnsigned(s: string, d: nat): Option<nat> {
    var parts := SplitParts(s, d);
    if parts.None? || !AreDigits(parts.value.0) || !AreDigits(parts.value.1) then None
    else Some(Magnitude(parts.value.0, parts.value.1, d))
  }

  function Negate(x: Option<nat>, isNegative: bool): Option<int> {
    if x.None? then None else Some(if isNegative then 0 - x.value else x.value)
  }

  function Parse(s: string, d: nat): Option<int> {
    var isNegative := s != "" && s[0] == '-';
    Negate(ParseUnsigned(if isNegative then s[1..] else s, d), isNegative)
  }

  /** Parse by taking the string apart step by step. */
  method ParseString(input: string, d: nat) returns (r: Option<int>)
    ensures r == Parse(input, d)
  {
    hide Zeros;
    var s, sign := input, 1;
    if s != "" && s[0] == '-' {
      sign := -1;
      s := s[1..];
    }
    if s == "" {
      return None;
    }
    var s0, s1 := s, "";
    if d == 0 {
      if IndexOf(s, '.') < |s| {
        return None;
      }
    } else {
      var pos := IndexOf(s, '.');
      if pos < |s| {
        s0, s1 := s[..pos], s[pos + 1..];
        if s0 == "" && s1 == "" {
          return None;
        }
        assert s1 + Zeros(0) == s1;
        if |s1| < d {
          s1 := s1 + Zeros(d - |s1|);
        }
      }
      if |s1| > d {
        return None;
      }
    }
    var ok := CheckDigits(s0 + s1);
    assert AreDigits(s0 + s1) <==> AreDigits(s0) && AreDigits(s1);
    if !ok {
      return None;
    }
    r := Some(sign * Magnitude(s0, s1, d));
  }

  method CheckDigits(s: string) returns (ok: bool)
    ensures ok == AreDigits(s)
  {
    for i := 0 to |s|
      invariant AreDigits(s[..i])
    {
      if !IsDigit(s[i]) {
        assert s[i] in s;
        return false;
      }
      assert s[..i + 1] == s[..i] + [s[i]];
    }
    assert s[..|s|] == s;
    return true;
  }

  // Digits and values

  lemma {:induction false} ValueOfSum(a: string, b: string)
    requires AreDigits(a) && AreDigits(b)
    ensures AreDigits(a + b) && ValueOf(a + b) == ValueOf(a) * Pow10(|b|) + ValueOf(b)
  {
    if b == "" {
      assert a + b == a;
    } else {
      var n := |b| - 1;
      assert AreDigits(b[..n]);
      ValueOfSum(a, b[..n]);
      assert (a + b)[..|a + b| - 1] == a + b[..n];
      assert AreDigits(a + b) && ValueOf(a + b) == 10 * ValueOf(a + b[..n]) + DigitValue(b[n]);
      assert ValueOf(b) == 10 * ValueOf(b[..n]) + DigitValue(b[n]) && Pow10(|b|) == 10 * Pow10(n);
      hide ValueOf, DigitValue, Pow10, AreDigits;
      TimesTen(ValueOf(a), Pow10(n));
    }
  }

  lemma TimesTen(v: nat, p: nat)
    ensures v * (10 * p) == 10 * (v * p)
  {
  }

  lemma {:induction false} ValueOfZeros(n: nat)
    ensures AreDigits(Zeros(n)) && ValueOf(Zeros(n)) == 0
  {
    if n > 0 {
      ValueOfZeros(n - 1);
      assert Zeros(n)[..n - 1] == Zeros(n - 1);
    }
  }

  lemma PadKeepsValue(s: string, n: nat)
    requires AreDigits(s)
    ensures AreDigits(Pad(s, n)) && ValueOf(Pad(s, n)) == ValueOf(s)
  {
    if |s| < n {
      ValueOfZeros(n - |s|);
      ValueOfSum(Zeros(n - |s|), s);
    }
  }

  // Round trip

  /** Stripping zeros is undone by filling up with zeros. */
  lemma StripThenFill(s: string, d: nat)
    requires |s| == d
    ensures StripZeros(s) + Zeros(d - |StripZeros(s)|) == s
  {
  }

  lemma FirstPosition(s: string, c: char, n: nat)
    requires n <= |s| && (n < |s| ==> s[n] == c) && forall i :: 0 <= i < n ==> s[i] != c
    ensures IndexOf(s, c) == n
  {
    var m := IndexOf(s, c);
    forall i | 0 <= i < m
      ensures s[i] != c
    {
      assert s[..m][i] == s[i];
    }
  }

  lemma NoIndex(s: string, c: char)
    requires c !in s
    ensures IndexOf(s, c) == |s|
  {
    FirstPosition(s, c, |s|);
  }

  lemma IndexAfter(s0: string, c: char, s1: string)
    requires c !in s0
    ensures IndexOf(s0 + [c] + s1, c) == |s0|
  {
    FirstPosition(s0 + [c] + s1, c, |s0|);
  }

  lemma AbsentDot(s: string)
    requires AreDigits(s)
    ensures IndexOf(s, '.') == |s|
  {
    NoIndex(s, '.');
  }

  lemma DotAfterDigits(s0: string, s1: string)
    requires AreDigits(s0)
    ensures IndexOf(s0 + "." + s1, '.') == |s0|
  {
    IndexAfter(s0, '.', s1);
  }

  lemma ParseSigned(sign: string, s: string, d: nat)
    requires (sign == "" || sign == "-") && s != "" && s[0] != '-'
    ensures Parse(sign + s, d) == Negate(ParseUnsigned(s, d), sign == "-")
  {
    hide ParseUnsigned;
    if sign == "-" {
      assert (sign + s)[1..] == s;
    } else {
      assert sign + s == s;
    }
  }

  /** A number without a fraction. */
  lemma ParseWhole(s0: string, d: nat)
    requires s0 != "" && AreDigits(s0)
    ensures ParseUnsigned(s0, d) == Some(ValueOf(s0) * Pow10(d))
    ensures s0[0] != '-'
  {
    hide Zeros;
    AbsentDot(s0);
    assert s0[0] in s0;
    assert ValueOf("") == 0;
  }

  /** A number with a fraction. */
  lemma ParseFraction(s0: string, s1: string, d: nat)
    requires AreDigits(s0) && AreDigits(s1) && |s1| == d && StripZeros(s1) != ""
    ensures
      var s := s0 + "." + StripZeros(s1);
      s[0] != '-' && ParseUnsigned(s, d) == Some(Magnitude(s0, s1, d))
  {
    hide Zeros, Magnitude, StripZeros, SplitParts;
    var t := StripZeros(s1);
    StripThenFill(s1, d);
    SplitAtDot(s0, t, d);
    if s0 != "" {
      assert s0[0] in s0;
    }
  }

  lemma SplitAtDot(s0: string, t: string, d: nat)
    requires AreDigits(s0) && t != "" && |t| <= d
    ensures SplitParts(s0 + "." + t, d) == Some((s0, t + Zeros(d - |t|)))
  {
    hide Zeros, IndexOf;
    DotAfterDigits(s0, t);
    var s := s0 + "." + t;
    assert s[..|s0|] == s0 && s[|s0| + 1..] == t;
  }

  lemma ParseZero(d: nat)
    ensures Parse("0", d) == Some(0)
  {
    ParseWhole("0", d);
    ParseSigned("", "0", d);
    assert "" + "0" == "0";
    assert ValueOf("0") == 0;
  }

  /** Parsing a number which has been put together from its parts. */
  lemma ParseComposed(sign: string, s0: string, s1: string, d: nat)
    requires sign == "" || sign == "-"
    requires AreDigits(s0) && AreDigits(s1) && |s1| == d > 0
    ensures Parse(Compose(sign, s0, s1), d) == Negate(Some(Magnitude(s0, s1, d)), sign == "-")
  {
    hide Parse, ParseUnsigned;
    var t := StripZeros(s1);
    if t == "" {
      ZeroFraction(s1, d);
      if s0 == "" {
        ParseZero(d);
        assert ValueOf("") == 0;
      } else {
        ParseWhole(s0, d);
        ParseSigned(sign, s0, d);
      }
    } else {
      ParseFraction(s0, s1, d);
      ParseSigned(sign, s0 + "." + t, d);
      Associative(sign, s0 + ".", t);
      Associative(sign, s0, ".");
    }
  }

  lemma ZeroFraction(s1: string, d: nat)
    requires AreDigits(s1) && |s1| == d && StripZeros(s1) == ""
    ensures ValueOf(s1) == 0
  {
    ValueOfZeros(d);
    assert s1 == Zeros(d);
  }

  /** The parts before and after the decimal point. */
  lemma PartsHaveValue(m: nat, d: nat)
    ensures
      var t := Pad(Digits(m), d);
      var s0, s1 := t[..|t| - d], t[|t| - d..];
      AreDigits(s0) && AreDigits(s1) && |s1| == d && Magnitude(s0, s1, d) == m
  {
    hide Pad, Digits, ValueOf, Zeros, Pow10;
    ValueOfDigits(m);
    PadKeepsValue(Digits(m), d);
    var t := Pad(Digits(m), d);
    var s0, s1 := t[..|t| - d], t[|t| - d..];
    assert t == s0 + s1;
    ValueOfSum(s0, s1);
  }

  /** Parsing gives the number which has been formatted. */
  lemma ParseReturns(x: int, d: nat)
    ensures Parse(Format(x, d), d) == Some(x)
  {
    hide Parse, Compose, Pad;
    var sign := if x < 0 then "-" else "";
    var m: nat := if x < 0 then -x else x;
    if d == 0 {
      NoLeadingZero(m);
      ValueOfDigits(m);
      ParseZero(0);
      ParseWhole(Digits(m), 0);
      ParseSigned(sign, Digits(m), 0);
    } else {
      PartsHaveValue(m, d);
      var t := Pad(Digits(m), d);
      ParseComposed(sign, t[..|t| - d], t[|t| - d..], d);
    }
  }

  // Normal form

  /** No more characters than necessary: no leading zeros except for a single
      zero, and no zeros or nothing after the decimal point. */
  predicate IsNormalUnsigned(s: string, d: nat) {
    var pos := IndexOf(s, '.');
    if pos == |s| then s != "" && AreDigits(s) && (s == "0" || s[0] != '0')
    else IsNormalFraction(s[..pos], s[pos + 1..], d)
  }

  predicate IsNormalFraction(s0: string, s1: string, d: nat) {
    && AreDigits(s0) && AreDigits(s1)
    && (s0 != "" ==> s0[0] != '0')
    && s1 != "" && |s1| <= d && s1[|s1| - 1] != '0'
  }

  predicate IsNormal(s: string, d: nat) {
    if s != "" && s[0] == '-' then s != "-0" && IsNormalUnsigned(s[1..], d)
    else IsNormalUnsigned(s, d)
  }

  lemma NormalSigned(sign: string, s: string, d: nat)
    requires sign == "" || sign == "-"
    requires IsNormalUnsigned(s, d) && (sign == "-" ==> s != "0") && s != "" && s[0] != '-'
    ensures IsNormal(sign + s, d)
  {
    hide IsNormalUnsigned;
    if sign == "-" {
      assert (sign + s)[1..] == s;
      assert s != "0" ==> sign + s != "-0" by {
        assert "-0"[1..] == "0";
      }
    } else {
      assert sign + s == s;
    }
  }

  lemma ComposedIsNormal(sign: string, s0: string, s1: string, d: nat)
    requires sign == "" || sign == "-"
    requires AreDigits(s0) && AreDigits(s1) && |s1| == d > 0 && (s0 != "" ==> s0[0] != '0')
    ensures IsNormal(Compose(sign, s0, s1), d)
  {
    hide IsNormal, Zeros;
    var t := StripZeros(s1);
    if t == "" {
      if s0 == "" {
        NormalSigned("", "0", d);
        assert "" + "0" == "0";
      } else {
        AbsentDot(s0);
        assert s0[0] in s0;
        NormalSigned(sign, s0, d);
      }
    } else {
      var s := s0 + "." + t;
      DotAfterDigits(s0, t);
      assert AreDigits(t);
      assert s[..|s0|] == s0 && s[|s0| + 1..] == t;
      assert s0 != "" ==> s[0] == s0[0] && s0[0] in s0;
      NormalSigned(sign, s, d);
      Associative(sign, s0 + ".", t);
      Associative(sign, s0, ".");
    }
  }

  /** Formatted numbers are in normal form. */
  lemma FormatIsNormal(x: int, d: nat)
    ensures IsNormal(Format(x, d), d)
  {
    hide IsNormal, Compose, Pad, IsNormalUnsigned;
    var sign := if x < 0 then "-" else "";
    var m: nat := if x < 0 then -x else x;
    if d == 0 {
      DigitsAreNormal(m);
      NoLeadingZero(m);
      NormalSigned(if m == 0 then "" else sign, Digits(m), d);
      assert "" + Digits(m) == Digits(m);
    } else {
      PartsHaveValue(m, d);
      NoZeroBefore(m, d);
      var t := Pad(Digits(m), d);
      ComposedIsNormal(sign, t[..|t| - d], t[|t| - d..], d);
    }
  }

  lemma DigitsAreNormal(m: nat)
    ensures IsNormalUnsigned(Digits(m), 0) && Digits(m)[0] != '-'
  {
    var s := Digits(m);
    assert s[0] in s;
    NoLeadingZero(m);
    AbsentDot(s);
  }

  lemma NoZeroBefore(m: nat, d: nat)
    requires d > 0
    ensures var t := Pad(Digits(m), d); |t| > d ==> t[0] != '0'
  {
    NoLeadingZero(m);
  }

  /** Digits are determined by their value, except for leading zeros. */
  lemma {:induction false} DigitsReturn(t: string)
    requires t != "" && AreDigits(t) && (|t| == 1 || t[0] != '0')
    ensures Digits(ValueOf(t)) == t
  {
    hide Digits, DigitValue, DigitChar;
    var n := |t| - 1;
    assert t[n] in t;
    if n == 0 {
      assert t[..0] == "" && t == [t[0]];
      OneDigit(t[0]);
    } else {
      assert AreDigits(t[..n]) && t[..n][0] == t[0];
      DigitsReturn(t[..n]);
      NoLeadingZero(ValueOf(t[..n]));
      OneDigit(t[n]);
      LastDigit(ValueOf(t[..n]), DigitValue(t[n]));
      assert t == t[..n] + [t[n]];
    }
  }

  lemma OneDigit(c: char)
    requires IsDigit(c)
    ensures DigitChar(DigitValue(c)) == c && Digits(DigitValue(c)) == [c]
  {
  }

  lemma LastDigit(m: nat, d: nat)
    requires m > 0 && d < 10
    ensures Digits(10 * m + d) == Digits(m) + [DigitChar(d)]
  {
  }

  lemma {:induction false} PadReturns(t: string)
    requires t != "" && AreDigits(t)
    ensures Pad(Digits(ValueOf(t)), |t|) == t
  {
    hide Digits, Pad, ValueOf, Zeros;
    if |t| == 1 || t[0] != '0' {
      DigitsReturn(t);
      PadNothing(t);
    } else {
      assert AreDigits(t[1..]);
      PadReturns(t[1..]);
      LeadingZero(t);
      PadOneMore(Digits(ValueOf(t[1..])), |t| - 1);
    }
  }

  lemma PadNothing(t: string)
    ensures Pad(t, |t|) == t
  {
  }

  lemma PadOneMore(s: string, n: nat)
    requires |Pad(s, n)| == n
    ensures Pad(s, n + 1) == "0" + Pad(s, n)
  {
    if |s| < n {
      assert Zeros(n + 1 - |s|) == "0" + Zeros(n - |s|);
      Associative("0", Zeros(n - |s|), s);
    } else {
      assert Zeros(1) == "0";
    }
  }

  lemma LeadingZero(t: string)
    requires |t| > 1 && AreDigits(t) && t[0] == '0'
    ensures AreDigits(t[1..]) && ValueOf(t) == ValueOf(t[1..]) && t == "0" + t[1..]
  {
    assert t == "0" + t[1..];
    ValueOfSum("0", t[1..]);
    assert ValueOf("0") == 0;
  }

  /** What a number in normal form consists of. */
  lemma NormalFractionReturns(sign: string, s0: string, s1: string, d: nat)
    requires IsNormalFraction(s0, s1, d)
    ensures
      var s1d := s1 + Zeros(d - |s1|);
      && AreDigits(s1d) && Magnitude(s0, s1d, d) > 0
      && Pad(Digits(Magnitude(s0, s1d, d)), d) == s0 + s1d
      && Compose(sign, s0, s1d) == sign + s0 + "." + s1
  {
    hide Zeros, ValueOf, Digits, Pad;
    var s1d := s1 + Zeros(d - |s1|);
    StripFilled(s1, d - |s1|);
    FractionIsPositive(s1, d - |s1|);
    ValueOfSum(s0, s1d);
    assert Magnitude(s0, s1d, d) == ValueOf(s0 + s1d);
    ProductIsNatural(ValueOf(s0), Pow10(d));
    if s0 == "" {
      assert s0 + s1d == s1d;
      PadReturns(s1d);
    } else {
      DigitsReturn(s0 + s1d);
      PadLong(s0 + s1d, d);
    }
  }

  lemma PadLong(t: string, d: nat)
    requires |t| >= d
    ensures Pad(t, d) == t
  {
  }

  lemma ProductIsNatural(a: nat, b: nat)
    ensures a * b >= 0
    ensures a > 0 && b > 0 ==> a * b > 0
  {
  }

  lemma FractionIsPositive(s: string, n: nat)
    requires AreDigits(s) && s != "" && s[|s| - 1] != '0'
    ensures AreDigits(s + Zeros(n)) && ValueOf(s + Zeros(n)) > 0
  {
    hide ValueOf, Zeros;
    ValueOfZeros(n);
    ValueOfSum(s, Zeros(n));
    LastDigitCounts(s);
    ProductIsNatural(ValueOf(s), Pow10(n));
  }

  lemma LastDigitCounts(s: string)
    requires AreDigits(s) && s != "" && s[|s| - 1] != '0'
    ensures ValueOf(s) > 0
  {
    assert s[|s| - 1] in s;
  }

  lemma {:induction false} StripFilled(s: string, n: nat)
    requires s != "" && s[|s| - 1] != '0'
    ensures StripZeros(s + Zeros(n)) == s
  {
    if n == 0 {
      assert s + Zeros(0) == s;
    } else {
      StripFilled(s, n - 1);
      var t := s + Zeros(n);
      assert t[..|t| - 1] == s + Zeros(n - 1);
    }
  }

  /** A number in normal form without a fraction. */
  lemma NormalWholeReturns(sign: string, s: string, d: nat)
    requires sign == "" || sign == "-"
    requires s != "" && AreDigits(s) && (s == "0" || s[0] != '0')
    requires s == "0" ==> sign == ""
    ensures
      var m := ValueOf(s) * Pow10(d);
      && (m == 0 <==> s == "0")
      && Format(if sign == "-" then 0 - m else m, d) == sign + s
  {
    hide Zeros, ValueOf, Pad, Compose, Digits;
    var m := ValueOf(s) * Pow10(d);
    DigitsReturn(s);
    ValueOfDigits(0);
    NoLeadingZero(ValueOf(s));
    ProductIsNatural(ValueOf(s), Pow10(d));
    assert "" + s == s;
    if d > 0 {
      if s == "0" {
        ComposeZero(d);
      } else {
        WholeParts(s, d);
        ComposeWhole(sign, s, d);
      }
    }
  }

  lemma ComposeZero(d: nat)
    requires d > 0
    ensures
      var t := Pad(Digits(0), d);
      Compose("", t[..|t| - d], t[|t| - d..]) == "0"
  {
    StripAll(d);
    var t := Pad(Digits(0), d);
    assert t == Zeros(d) && t[|t| - d..] == Zeros(d);
  }

  lemma {:induction false} StripAll(n: nat)
    ensures StripZeros(Zeros(n)) == ""
  {
    if n > 0 {
      StripAll(n - 1);
      assert Zeros(n)[..n - 1] == Zeros(n - 1);
    }
  }

  lemma ComposeWhole(sign: string, s: string, d: nat)
    requires s != ""
    ensures
      var t := s + Zeros(d);
      Compose(sign, t[..|t| - d], t[|t| - d..]) == sign + s
  {
    StripAll(d);
    var t := s + Zeros(d);
    assert t[..|t| - d] == s && t[|t| - d..] == Zeros(d);
  }

  lemma WholeParts(s: string, d: nat)
    requires s != "" && AreDigits(s) && s[0] != '0'
    ensures
      var m := ValueOf(s) * Pow10(d);
      Pad(Digits(m), d) == s + Zeros(d)
  {
    hide Zeros, ValueOf, Pad, Digits;
    ValueOfZeros(d);
    ValueOfSum(s, Zeros(d));
    DigitsReturn(s + Zeros(d));
    PadLong(s + Zeros(d), d);
  }

  /** Each number has only one representation in normal form: the one which
      formatting gives. */
  lemma NormalFormIsUnique(s: string, d: nat)
    requires IsNormal(s, d)
    ensures Parse(s, d).Some? && Format(Parse(s, d).value, d) == s
  {
    hide Format, Parse, Zeros, IsNormalUnsigned;
    if s != "" && s[0] == '-' {
      NormalStart(s[1..], d);
      assert s == "-" + s[1..];
      assert "-" + "0" == "-0";
      NormalReturns("-", s[1..], d);
    } else {
      NormalStart(s, d);
      assert "" + s == s;
      NormalReturns("", s, d);
    }
  }

  lemma NormalStart(u: string, d: nat)
    requires IsNormalUnsigned(u, d)
    ensures u != "" && u[0] != '-'
  {
    var pos := IndexOf(u, '.');
    if pos == 0 {
      assert u != "";
    } else {
      var digits := if pos == |u| then u else u[..pos];
      assert u[0] == digits[0] && digits[0] in digits;
    }
  }

  lemma NormalReturns(sign: string, u: string, d: nat)
    requires sign == "" || sign == "-"
    requires IsNormalUnsigned(u, d) && (u == "0" ==> sign == "") && u != "" && u[0] != '-'
    ensures Parse(sign + u, d).Some? && Format(Parse(sign + u, d).value, d) == sign + u
  {
    hide Format, Parse, ParseUnsigned, Zeros, Digits, Pad, Compose;
    ParseSigned(sign, u, d);
    var pos := IndexOf(u, '.');
    if pos == |u| {
      ParseWhole(u, d);
      NormalWholeReturns(sign, u, d);
      ProductIsNatural(ValueOf(u), Pow10(d));
    } else {
      var s0, s1 := u[..pos], u[pos + 1..];
      var s1d := s1 + Zeros(d - |s1|);
      assert u == s0 + "." + s1;
      Associative(sign, s0 + ".", s1);
      Associative(sign, s0, ".");
      NormalFractionReturns(sign, s0, s1, d);
      StripFilled(s1, d - |s1|);
      ParseFraction(s0, s1d, d);
      FormatOfParts(sign, s0, s1d, d);
    }
  }

  lemma FormatOfParts(sign: string, s0: string, s1: string, d: nat)
    requires sign == "" || sign == "-"
    requires AreDigits(s0) && AreDigits(s1) && |s1| == d > 0
    requires Magnitude(s0, s1, d) > 0 && Pad(Digits(Magnitude(s0, s1, d)), d) == s0 + s1
    ensures
      var m := Magnitude(s0, s1, d);
      Format(if sign == "-" then 0 - m else m, d) == Compose(sign, s0, s1)
  {
    hide Compose, Pad, Magnitude;
    var t := s0 + s1;
    assert t[..|t| - d] == s0 && t[|t| - d..] == s1;
  }
}
