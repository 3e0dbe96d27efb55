/** Sorting the rows of a parts list. */
module PartsList {
  import opened Sequences

  type Row = seq<string>

  /** Whether all rows have a certain column. */
  ghost predicate HaveColumn(ls: seq<Row>, column: nat) {
    forall i :: 0 <= i < |ls| ==> column < |ls[i]|
  }

  // Comparing values without regard to case

  function LowerChar(c: char): char {
    if 'A' <= c <= 'Z' then 'a' + (c - 'A') else c
  }

  function Lower(s: string): string {
    if s == "" then "" else [LowerChar(s[0])] + Lower(s[1..])
  }

  /** Alphabetical order. */
  predicate AtMost(a: string, b: string) {
    || a == ""
    || (b != "" && (a[0] < b[0] || (a[0] == b[0] && AtMost(a[1..], b[1..]))))
  }

  lemma {:induction false} AtMostIsTotal(a: string, b: string)
    ensures AtMost(a, b) || AtMost(b, a)
    ensures AtMost(a, b) && AtMost(b, a) ==> a == b
    decreases |a|
  {
    if a != "" && b != "" && a[0] == b[0] {
      AtMostIsTotal(a[1..], b[1..]);
      assert a == [a[0]] + a[1..] && b == [b[0]] + b[1..];
    }
  }

  lemma {:induction false} AtMostIsTransitive(a: string, b: string, c: string)
    requires AtMost(a, b) && AtMost(b, c)
    ensures AtMost(a, c)
    decreases |a|
  {
    if a != "" && a[0] == b[0] == c[0] {
      AtMostIsTransitive(a[1..], b[1..], c[1..]);
    }
  }

  function Key(x: Row, column: nat): string
    requires column < |x|
  {
    Lower(x[column])
  }

  // Sorting by one column

  function MergeSub(ls1: seq<Row>, ls2: seq<Row>, column: nat): (r: seq<Row>)
    requires HaveColumn(ls1, column) && HaveColumn(ls2, column)
    ensures |r| == |ls1| + |ls2|
    decreases |ls1| + |ls2|
  {
    if ls1 == [] || ls2 == [] then ls1 + ls2
    else if AtMost(Key(ls1[0], column), Key(ls2[0], column)) then
      [ls1[0]] + MergeSub(ls1[1..], ls2, column)
    else
      [ls2[0]] + MergeSub(ls1, ls2[1..], column)
  }

  function MergeSort(ls: seq<Row>, column: nat): (r: seq<Row>)
    requires HaveColumn(ls, column)
    ensures |r| == |ls| && HaveColumn(r, column)
    decreases |ls|
  {
    if |ls| <= 1 then ls
    else
      var n := |ls| - |ls| / 2;
      var a, b := MergeSort(ls[..n], column), MergeSort(ls[n..], column);
      MergeKeepsRows(a, b, column);
      RowsHaveColumn(MergeSub(a, b, column), a + b, column);
      MergeSub(a, b, column)
  }

  lemma {:induction false} MergeKeepsRows(ls1: seq<Row>, ls2: seq<Row>, column: nat)
    requires HaveColumn(ls1, column) && HaveColumn(ls2, column)
    ensures multiset(MergeSub(ls1, ls2, column)) == multiset(ls1 + ls2)
    decreases |ls1| + |ls2|
  {
    hide AtMost, Key;
    ElementsOfSum(ls1, ls2);
    if ls1 != [] && ls2 != [] {
      var m := MergeSub(ls1, ls2, column);
      ElementsOfRest(m);
      ElementsOfRest(ls1);
      ElementsOfRest(ls2);
      if AtMost(Key(ls1[0], column), Key(ls2[0], column)) {
        assert m[1..] == MergeSub(ls1[1..], ls2, column);
        MergeKeepsRows(ls1[1..], ls2, column);
        ElementsOfSum(ls1[1..], ls2);
      } else {
        assert m[1..] == MergeSub(ls1, ls2[1..], column);
        MergeKeepsRows(ls1, ls2[1..], column);
        ElementsOfSum(ls1, ls2[1..]);
      }
    }
  }

  lemma RowsHaveColumn(r: seq<Row>, ls: seq<Row>, column: nat)
    requires HaveColumn(ls, column) && multiset(r) == multiset(ls)
    ensures HaveColumn(r, column)
  {
    forall i | 0 <= i < |r|
      ensures column < |r[i]|
    {
      assert r[i] in multiset(r);
      assert r[i] in ls;
    }
  }

  ghost predicate IsSorted(ls: seq<Row>, column: nat)
    requires HaveColumn(ls, column)
  {
    forall i, j :: 0 <= i < j < |ls| ==> AtMost(Key(ls[i], column), Key(ls[j], column))
  }

  /** Sorting keeps all rows. */
  lemma {:induction false} SortKeepsRows(ls: seq<Row>, column: nat)
    requires HaveColumn(ls, column)
    ensures multiset(MergeSort(ls, column)) == multiset(ls)
    decreases |ls|
  {
    hide MergeSub;
    if |ls| > 1 {
      var n := |ls| - |ls| / 2;
      var a, b := MergeSort(ls[..n], column), MergeSort(ls[n..], column);
      SortKeepsRows(ls[..n], column);
      SortKeepsRows(ls[n..], column);
      assert ls == ls[..n] + ls[n..];
      ElementsOfSum(ls[..n], ls[n..]);
      ElementsOfSum(a, b);
      MergeKeepsRows(a, b, column);
    }
  }

  /** Whether a row doesn't come after any of some others. */
  ghost predicate IsLeast(x: Row, ls: seq<Row>, column: nat)
    requires column < |x| && HaveColumn(ls, column)
  {
    forall i :: 0 <= i < |ls| ==> AtMost(Key(x, column), Key(ls[i], column))
  }

  lemma LeastOfSorted(x: Row, ls: seq<Row>, column: nat)
    requires column < |x| && HaveColumn(ls, column) && IsSorted(ls, column)
    requires ls != [] ==> AtMost(Key(x, column), Key(ls[0], column))
    ensures IsLeast(x, ls, column)
  {
    hide AtMost, Key;
    forall i | 0 <= i < |ls|
      ensures AtMost(Key(x, column), Key(ls[i], column))
    {
      if i > 0 {
        AtMostIsTransitive(Key(x, column), Key(ls[0], column), Key(ls[i], column));
      }
    }
  }

  lemma LeastOfMerged(x: Row, ls1: seq<Row>, ls2: seq<Row>, m: seq<Row>, column: nat)
    requires column < |x| && HaveColumn(ls1, column) && HaveColumn(ls2, column) && HaveColumn(m, column)
    requires IsLeast(x, ls1, column) && IsLeast(x, ls2, column)
    requires multiset(m) == multiset(ls1 + ls2)
    ensures IsLeast(x, m, column)
  {
    hide AtMost, Key;
    forall i | 0 <= i < |m|
      ensures AtMost(Key(x, column), Key(m[i], column))
    {
      assert m[i] in multiset(m) && m[i] in ls1 + ls2;
    }
  }

  lemma PrependLeast(x: Row, m: seq<Row>, column: nat)
    requires column < |x| && HaveColumn(m, column) && IsSorted(m, column) && IsLeast(x, m, column)
    ensures HaveColumn([x] + m, column) && IsSorted([x] + m, column)
  {
    hide AtMost, Key;
  }

  /** Merging two sorted lists gives a sorted list. */
  lemma {:induction false} MergeSorts(ls1: seq<Row>, ls2: seq<Row>, column: nat)
    requires HaveColumn(ls1, column) && HaveColumn(ls2, column)
    requires IsSorted(ls1, column) && IsSorted(ls2, column)
    ensures HaveColumn(MergeSub(ls1, ls2, column), column) && IsSorted(MergeSub(ls1, ls2, column), column)
    decreases |ls1| + |ls2|
  {
    hide AtMost, Key;
    if ls1 == [] {
      assert ls1 + ls2 == ls2;
    } else if ls2 == [] {
      assert ls1 + ls2 == ls1;
    } else if AtMost(Key(ls1[0], column), Key(ls2[0], column)) {
      var m := MergeSub(ls1[1..], ls2, column);
      MergeSorts(ls1[1..], ls2, column);
      MergeKeepsRows(ls1[1..], ls2, column);
      LeastOfSorted(ls1[0], ls1[1..], column);
      LeastOfSorted(ls1[0], ls2, column);
      LeastOfMerged(ls1[0], ls1[1..], ls2, m, column);
      PrependLeast(ls1[0], m, column);
    } else {
      var m := MergeSub(ls1, ls2[1..], column);
      AtMostIsTotal(Key(ls1[0], column), Key(ls2[0], column));
      MergeSorts(ls1, ls2[1..], column);
      MergeKeepsRows(ls1, ls2[1..], column);
      LeastOfSorted(ls2[0], ls2[1..], column);
      LeastOfSorted(ls2[0], ls1, column);
      LeastOfMerged(ls2[0], ls1, ls2[1..], m, column);
      PrependLeast(ls2[0], m, column);
    }
  }

  /** Sorting sorts. */
  lemma {:induction false} SortSorts(ls: seq<Row>, column: nat)
    requires HaveColumn(ls, column)
    ensures IsSorted(MergeSort(ls, column), column)
    decreases |ls|
  {
    hide AtMost, Key;
    if |ls| > 1 {
      var n := |ls| - |ls| / 2;
      SortSorts(ls[..n], column);
      SortSorts(ls[n..], column);
      MergeSorts(MergeSort(ls[..n], column), MergeSort(ls[n..], column), column);
    }
  }

  // Stability

  function SelectOne(x: Row, column: nat, key: string): seq<Row>
    requires column < |x|
  {
    if Key(x, column) == key then [x] else []
  }

  /** The rows with a certain value in a column, in their order. */
  function Select(ls: seq<Row>, column: nat, key: string): seq<Row>
    requires HaveColumn(ls, column)
  {
    if ls == [] then [] else SelectOne(ls[0], column, key) + Select(ls[1..], column, key)
  }

  lemma {:induction false} SelectSplits(a: seq<Row>, b: seq<Row>, column: nat, key: string)
    requires HaveColumn(a, column) && HaveColumn(b, column)
    ensures HaveColumn(a + b, column)
    ensures Select(a + b, column, key) == Select(a, column, key) + Select(b, column, key)
  {
    hide SelectOne;
    if a == [] {
      assert a + b == b;
    } else {
      SelectSplits(a[1..], b, column, key);
      assert (a + b)[1..] == a[1..] + b;
      Associative(SelectOne(a[0], column, key), Select(a[1..], column, key), Select(b, column, key));
    }
  }

  lemma {:induction false} SelectNone(ls: seq<Row>, column: nat, key: string)
    requires HaveColumn(ls, column)
    requires forall i :: 0 <= i < |ls| ==> Key(ls[i], column) != key
    ensures Select(ls, column, key) == []
  {
    hide Key;
    if ls != [] {
      SelectNone(ls[1..], column, key);
    }
  }

  /** Merging puts rows of the first list before equal rows of the second. */
  lemma {:induction false} MergeIsStable(ls1: seq<Row>, ls2: seq<Row>, column: nat, key: string)
    requires HaveColumn(ls1, column) && HaveColumn(ls2, column)
    requires IsSorted(ls1, column) && IsSorted(ls2, column)
    ensures HaveColumn(MergeSub(ls1, ls2, column), column)
    ensures Select(MergeSub(ls1, ls2, column), column, key) == Select(ls1, column, key) + Select(ls2, column, key)
    decreases |ls1| + |ls2|
  {
    hide AtMost, Key, SelectOne;
    MergeSorts(ls1, ls2, column);
    if ls1 == [] || ls2 == [] {
      SelectSplits(ls1, ls2, column, key);
    } else if AtMost(Key(ls1[0], column), Key(ls2[0], column)) {
      MergeIsStable(ls1[1..], ls2, column, key);
      Associative(SelectOne(ls1[0], column, key), Select(ls1[1..], column, key), Select(ls2, column, key));
    } else {
      MergeIsStable(ls1, ls2[1..], column, key);
      LaterRowsDiffer(ls1, ls2[0], column, key);
      Associative(SelectOne(ls2[0], column, key), Select(ls1, column, key), Select(ls2[1..], column, key));
      Associative(Select(ls1, column, key), SelectOne(ls2[0], column, key), Select(ls2[1..], column, key));
    }
  }

  /** If a row comes before all rows of a list, either the row doesn't have a
      certain value or none of the others has. */
  lemma LaterRowsDiffer(ls: seq<Row>, x: Row, column: nat, key: string)
    requires column < |x| && HaveColumn(ls, column) && IsSorted(ls, column)
    requires ls != [] && !AtMost(Key(ls[0], column), Key(x, column))
    ensures SelectOne(x, column, key) + Select(ls, column, key) ==
      Select(ls, column, key) + SelectOne(x, column, key)
  {
    hide AtMost, Key;
    if Key(x, column) == key {
      forall i | 0 <= i < |ls|
        ensures Key(ls[i], column) != key
      {
        AtMostIsTotal(Key(ls[0], column), Key(ls[0], column));
        assert AtMost(Key(ls[0], column), Key(ls[i], column));
      }
      SelectNone(ls, column, key);
    }
  }

  /** Sorting doesn't change the order of rows which have the same value, apart
      from case, in the column. */
  lemma {:induction false} SortIsStable(ls: seq<Row>, column: nat, key: string)
    requires HaveColumn(ls, column)
    ensures Select(MergeSort(ls, column), column, key) == Select(ls, column, key)
    decreases |ls|
  {
    hide AtMost, Key, SelectOne, Select, MergeSub;
    if |ls| > 1 {
      var n := |ls| - |ls| / 2;
      assert ls == ls[..n] + ls[n..];
      SortIsStable(ls[..n], column, key);
      SortIsStable(ls[n..], column, key);
      SortSorts(ls[..n], column);
      SortSorts(ls[n..], column);
      MergeIsStable(MergeSort(ls[..n], column), MergeSort(ls[n..], column), column, key);
      SelectSplits(ls[..n], ls[n..], column, key);
    }
  }

  // Lists which are in order already

  lemma {:induction false} MergeAppends(a: seq<Row>, b: seq<Row>, column: nat)
    requires HaveColumn(a, column) && HaveColumn(b, column)
    requires forall i, j :: 0 <= i < |a| && 0 <= j < |b| ==> AtMost(Key(a[i], column), Key(b[j], column))
    ensures MergeSub(a, b, column) == a + b
    decreases |a|
  {
    hide AtMost, Key;
    if a != [] && b != [] {
      assert forall i :: 0 <= i < |a[1..]| ==> a[1..][i] == a[i + 1];
      MergeAppends(a[1..], b, column);
      assert [a[0]] + (a[1..] + b) == a + b;
    }
  }

  lemma {:induction false} SortedRowsStay(ls: seq<Row>, column: nat)
    requires HaveColumn(ls, column) && IsSorted(ls, column)
    ensures MergeSort(ls, column) == ls
    decreases |ls|
  {
    hide AtMost, Key, MergeSub;
    if |ls| > 1 {
      var n := |ls| - |ls| / 2;
      assert forall i :: 0 <= i < |ls[n..]| ==> ls[n..][i] == ls[n + i];
      SortedRowsStay(ls[..n], column);
      SortedRowsStay(ls[n..], column);
      MergeAppends(ls[..n], ls[n..], column);
      assert ls == ls[..n] + ls[n..];
    }
  }
}
