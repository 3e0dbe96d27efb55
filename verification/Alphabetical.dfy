/** Alphabetical order, and values without regard to case. */
module Alphabetical {
  import opened PartsList

  /** Two strings agree up to a position, where the first one has the smaller
      character. */
  ghost predicate DiffersAt(a: string, b: string, i: nat) {
    i < |a| && i < |b| && a[..i] == b[..i] && a[i] < b[i]
  }

  /** A string comes before the ones which continue it, and otherwise the first
      character in which two strings differ decides. */
  lemma {:induction false} AtMostExactlyIf(a: string, b: string)
    ensures AtMost(a, b) <==> a <= b || exists i: nat :: DiffersAt(a, b, i)
  {
    if a != "" && b != "" {
      forall i: nat | DiffersAt(a, b, i) && i > 0
        ensures a[0] == b[0]
      {
        FirstAgrees(a, b, i);
      }
      if a[0] == b[0] {
        AtMostExactlyIf(a[1..], b[1..]);
        assert a == [a[0]] + a[1..] && b == [b[0]] + b[1..];
        if i: nat :| DiffersAt(a[1..], b[1..], i) {
          assert a[..i + 1] == [a[0]] + a[1..][..i] && b[..i + 1] == [b[0]] + b[1..][..i];
          assert DiffersAt(a, b, i + 1);
        }
        if i: nat :| DiffersAt(a, b, i) {
          assert i > 0;
          assert a[1..][..i - 1] == a[..i][1..] && b[1..][..i - 1] == b[..i][1..];
          assert DiffersAt(a[1..], b[1..], i - 1);
        }
      } else if a[0] < b[0] {
        assert DiffersAt(a, b, 0);
      }
    }
  }

  lemma FirstAgrees(a: string, b: string, i: nat)
    requires DiffersAt(a, b, i) && i > 0
    ensures a[0] == b[0]
  {
    assert a[..i][0] == a[0] && b[..i][0] == b[0];
  }

  ghost predicate IsUpperCase(c: char) {
    'A' <= c <= 'Z'
  }

  /** Each letter of the upper case is replaced by the letter at the same place in
      the lower case, and no other character is changed. */
  lemma {:induction false} LowerChangesLetters(s: string)
    ensures |Lower(s)| == |s|
    ensures forall i :: 0 <= i < |s| && !IsUpperCase(s[i]) ==> Lower(s)[i] == s[i]
    ensures forall i :: 0 <= i < |s| && IsUpperCase(s[i]) ==>
      'a' <= Lower(s)[i] <= 'z' && Lower(s)[i] as int - 'a' as int == s[i] as int - 'A' as int
  {
    if s != "" {
      LowerChangesLetters(s[1..]);
      var c, rest := LowerChar(s[0]), Lower(s[1..]);
      assert Lower(s) == [c] + rest;
      assert forall i :: 0 < i < |s| ==> s[i] == s[1..][i - 1] && Lower(s)[i] == rest[i - 1];
    }
  }

  /** Values are sorted by their characters, not by their lengths or as numbers. */
  lemma TenBeforeTwo()
    ensures HaveColumn([["10k"], ["2k"]], 0) && MergeSort([["10k"], ["2k"]], 0) == [["10k"], ["2k"]]
  {
    var a, b := "10k", "2k";
    LowerChangesLetters(a);
    LowerChangesLetters(b);
    assert Lower(a)[0] == '1' && Lower(b)[0] == '2';
    AtMostExactlyIf(Lower(a), Lower(b));
    assert DiffersAt(Lower(a), Lower(b), 0);
    hide Lower, AtMost;
    SortedRowsStay([[a], [b]], 0);
  }
}
