/** Binary and hexadecimal numbers as lists of digits. */
module Bits {
  import opened Sequences

  type Bit = b: nat | b < 2

  function Pow2(n: nat): (p: nat)
    ensures p > 0
  {
    if n == 0 then 1 else 2 * Pow2(n - 1)
  }

  function ZeroBits(n: nat): (z: seq<Bit>)
    ensures |z| == n && forall i :: 0 <= i < n ==> z[i] == 0
  {
    seq(n, _ => 0)
  }

  function ValueOfBits(bits: seq<Bit>): nat {
    if bits == [] then 0 else 2 * ValueOfBits(bits[..|bits| - 1]) + bits[|bits| - 1]
  }

  lemma {:induction false} PowerOfSum(a: nat, b: nat)
    ensures Pow2(a + b) == Pow2(a) * Pow2(b)
  {
    if a > 0 {
      PowerOfSum(a - 1, b);
    }
  }

  lemma {:induction false} ValueOfBitSum(a: seq<Bit>, b: seq<Bit>)
    ensures ValueOfBits(a + b) == ValueOfBits(a) * Pow2(|b|) + ValueOfBits(b)
  {
    if b == [] {
      assert a + b == a;
    } else {
      var n := |b| - 1;
      ValueOfBitSum(a, b[..n]);
      assert (a + b)[..|a + b| - 1] == a + b[..n];
      assert ValueOfBits(a) * Pow2(|b|) == 2 * (ValueOfBits(a) * Pow2(n));
    }
  }

  lemma {:induction false} ValueOfZeroBits(n: nat)
    ensures ValueOfBits(ZeroBits(n)) == 0
  {
    if n > 0 {
      ValueOfZeroBits(n - 1);
      assert ZeroBits(n)[..n - 1] == ZeroBits(n - 1);
    }
  }

  lemma AppendZeroBits(bits: seq<Bit>, n: nat)
    ensures ValueOfBits(bits + ZeroBits(n)) == ValueOfBits(bits) * Pow2(n)
  {
    ValueOfBitSum(bits, ZeroBits(n));
    ValueOfZeroBits(n);
  }

  lemma PrependZeroBits(n: nat, bits: seq<Bit>)
    ensures ValueOfBits(ZeroBits(n) + bits) == ValueOfBits(bits)
  {
    ValueOfBitSum(ZeroBits(n), bits);
    ValueOfZeroBits(n);
  }

  lemma {:induction false} BitsAreLess(bits: seq<Bit>)
    ensures ValueOfBits(bits) < Pow2(|bits|)
  {
    if bits != [] {
      BitsAreLess(bits[..|bits| - 1]);
    }
  }

  // Hexadecimal digits

  function HexChar(v: nat): char
    requires v < 16
  {
    if v < 10 then '0' + v as char else 'a' + (v - 10) as char
  }

  predicate IsHexDigit(c: char) {
    '0' <= c <= '9' || 'a' <= c <= 'f'
  }

  function HexDigitValue(c: char): (v: nat)
    requires IsHexDigit(c)
    ensures v < 16
  {
    if c <= '9' then c as int - '0' as int else c as int - 'a' as int + 10
  }

  predicate AreHexDigits(s: string) {
    forall c :: c in s ==> IsHexDigit(c)
  }

  function ValueOfHex(s: string): nat
    requires AreHexDigits(s)
  {
    if s == "" then 0 else 16 * ValueOfHex(s[..|s| - 1]) + HexDigitValue(s[|s| - 1])
  }

  function Nibble(bits: seq<Bit>): (v: nat)
    requires |bits| == 4
    ensures v < 16
  {
    (bits[0] as nat) * 8 + (bits[1] as nat) * 4 + (bits[2] as nat) * 2 + bits[3] as nat
  }

  /** Groups of four bits as hexadecimal digits. */
  function HexOf(bits: seq<Bit>): (s: string)
    requires |bits| % 4 == 0
    ensures |s| == |bits| / 4 && AreHexDigits(s)
  {
    if bits == [] then ""
    else
      var n := |bits| - 4;
      HexOf(bits[..n]) + [HexChar(Nibble(bits[n..]))]
  }

  lemma NibbleIsValue(bits: seq<Bit>)
    requires |bits| == 4
    ensures ValueOfBits(bits) == Nibble(bits)
  {
    var b3 := bits[..3];
    var b2 := b3[..2];
    var b1 := b2[..1];
    assert b1[..0] == [];
    assert ValueOfBits(b1) == bits[0];
    assert ValueOfBits(b2) == 2 * (bits[0] as nat) + bits[1] as nat;
    assert ValueOfBits(b3) == 4 * (bits[0] as nat) + 2 * (bits[1] as nat) + bits[2] as nat;
  }

  lemma {:induction false} HexHasValueOfBits(bits: seq<Bit>)
    requires |bits| % 4 == 0
    ensures ValueOfHex(HexOf(bits)) == ValueOfBits(bits)
  {
    if bits != [] {
      var n := |bits| - 4;
      HexHasValueOfBits(bits[..n]);
      NibbleIsValue(bits[n..]);
      ValueOfBitSum(bits[..n], bits[n..]);
      assert bits == bits[..n] + bits[n..];
      assert Pow2(4) == 16;
      var s := HexOf(bits);
      assert s[..|s| - 1] == HexOf(bits[..n]);
    }
  }
}
