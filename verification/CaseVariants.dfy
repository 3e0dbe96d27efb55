/** When sorting by several columns gives the order by all of these columns,
    for all tables over the values which are permitted in each column. */
module CaseVariants {
  import opened Sequences
  import opened PartsList
  import opened MultikeySort

  /** The values permitted in each column. */
  type Permitted = (nat, string) -> bool

  ghost predicate IsTable(ls: seq<Row>, width: nat, permitted: Permitted) {
    forall i :: 0 <= i < |ls| ==> IsRow(ls[i], width, permitted)
  }

  ghost predicate IsRow(x: Row, width: nat, permitted: Permitted) {
    |x| == width && forall c :: 0 <= c < width ==> permitted(c, x[c])
  }

  ghost predicate AreVariants(u: string, v: string) {
    u != v && Lower(u) == Lower(v)
  }

  /** There are two values in a key column which differ only in case, and a
      later key column in which there are different values. */
  ghost predicate IsAmbiguity(columns: seq<nat>, permitted: Permitted, k: nat, l: nat,
                              u: string, v: string, x: string, y: string) {
    && k < l < |columns| && columns[l] !in columns[..l]
    && permitted(columns[k], u) && permitted(columns[k], v) && AreVariants(u, v)
    && permitted(columns[l], x) && permitted(columns[l], y) && Lower(x) != Lower(y)
  }

  ghost predicate MayBeAmbiguous(columns: seq<nat>, permitted: Permitted) {
    exists k, l, u, v, x, y :: IsAmbiguity(columns, permitted, k, l, u, v, x, y)
  }

  ghost predicate ComesOutOrdered(ls: seq<Row>, columns: seq<nat>) {
    && HaveColumns(ls, columns) && HaveColumns(SortByColumns(ls, columns), columns)
    && IsOrdered(SortByColumns(ls, columns), columns)
  }

  // Groups which contain all rows

  lemma {:induction false} SelectAll(ls: seq<Row>, column: nat, key: string)
    requires AllHaveKey(ls, column, key)
    ensures HaveColumn(ls, column) && Select(ls, column, key) == ls
  {
    hide Key;
    if ls != [] {
      SelectAll(ls[1..], column, key);
      assert ls == [ls[0]] + ls[1..];
      assert ls[0] == ls[..1][0];
    }
  }

  /** Rows with the same value, apart from case, stay where they are. */
  lemma EqualRowsStay(ls: seq<Row>, column: nat, key: string)
    requires AllHaveKey(ls, column, key)
    ensures HaveColumn(ls, column) && MergeSort(ls, column) == ls
  {
    hide MergeSort, Select;
    SelectAll(ls, column, key);
    SortIsStable(ls, column, key);
    SortKeepsRows(ls, column);
    SameRowsSameKey(MergeSort(ls, column), ls, column, key);
    SelectAll(MergeSort(ls, column), column, key);
  }

  /** If the last row has the same value as the first one, all rows form a group,
      whose order is reversed. */
  lemma WholeGroup(ls: seq<Row>, columns: seq<nat>, key: string)
    requires |ls| > 1 && columns != [] && HaveColumns(ls, columns)
    requires AllHaveKey(ls, columns[0], key)
    requires columns[0] < |ls[0]| && columns[0] < |ls[|ls| - 1]| && ls[0][columns[0]] == ls[|ls| - 1][columns[0]]
    ensures HaveColumns(Reversed(ls), columns[1..])
    ensures SortByColumns(ls, columns) == SortByColumns(Reversed(ls), columns[1..])
  {
    hide MergeSort, Key;
    GroupsHaveColumns(ls, columns);
    EqualRowsStay(ls, columns[0], key);
    assert ls[..|ls|] == ls && ls[|ls|..] == [];
    assert FirstGroup(ls, columns[0]) == |ls|;
    assert Group(ls, columns[0]) == Reversed(ls) && Others(ls, columns[0]) == [];
    assert SortByColumns([], columns) == [];
  }

  /** If two values differ only in case, they form groups on their own and stay
      where they are. */
  lemma SeparateGroups(p: Row, q: Row, columns: seq<nat>)
    requires columns != [] && HaveColumns([p, q], columns)
    requires columns[0] < |p| && columns[0] < |q| && AreVariants(p[columns[0]], q[columns[0]])
    ensures SortByColumns([p, q], columns) == [p, q]
  {
    hide MergeSort, Lower;
    var ls, c := [p, q], columns[0];
    GroupsHaveColumns(ls, columns);
    assert AllHaveKey(ls, c, Lower(p[c]));
    EqualRowsStay(ls, c, Lower(p[c]));
    assert ls[..1] == [p] && ls[1..] == [q];
    assert MatchLength(ls, c, p[c]) == MatchLength(ls[..1], c, p[c]) == 1;
    assert Group(ls, c) == [p] && Others(ls, c) == [q];
    assert [p] + [q] == [p, q];
  }

  function Pair(p: Row, q: Row, isReversed: bool): seq<Row> {
    if isReversed then [q, p] else [p, q]
  }

  /** Two rows which agree up to a key column in which they differ only in case:
      their order is reversed for each key column before this one. */
  lemma {:induction false} PairIsSorted(p: Row, q: Row, columns: seq<nat>, j: nat)
    requires j < |columns| && HaveColumns([p, q], columns)
    requires forall m :: 0 <= m < |columns| ==> columns[m] < |p| && columns[m] < |q|
    requires forall m :: 0 <= m < j ==> p[columns[m]] == q[columns[m]]
    requires AreVariants(p[columns[j]], q[columns[j]])
    ensures
      var ls := Pair(p, q, j % 2 == 1);
      HaveColumns(ls, columns) && SortByColumns(ls, columns) == [p, q]
    decreases j
  {
    hide SortByColumns, Lower;
    var ls := Pair(p, q, j % 2 == 1);
    assert HaveColumns(ls, columns);
    if j == 0 {
      SeparateGroups(p, q, columns);
    } else {
      var key := Lower(p[columns[0]]);
      assert AllHaveKey(ls, columns[0], key);
      WholeGroup(ls, columns, key);
      assert Reversed(ls) == Pair(p, q, (j - 1) % 2 == 1);
      var some := columns[1..];
      assert HaveColumns([p, q], some);
      PairIsSorted(p, q, some, j - 1);
    }
  }

  /** The first key column in which two rows differ, apart from case, decides. */
  lemma {:induction false} LaterColumnDecides(a: Row, b: Row, columns: seq<nat>, l: nat)
    requires l < |columns| && forall m :: 0 <= m < |columns| ==> columns[m] < |a| && columns[m] < |b|
    requires forall m :: 0 <= m < l ==> Key(a, columns[m]) == Key(b, columns[m])
    requires !AtMost(Key(a, columns[l]), Key(b, columns[l]))
    ensures !MayPrecede(a, b, columns)
    decreases l
  {
    hide Key, AtMost;
    if l == 0 {
      AtMostIsTotal(Key(a, columns[0]), Key(a, columns[0]));
    } else {
      LaterColumnDecides(a, b, columns[1..], l - 1);
    }
  }

  // Ambiguities make a difference

  /** The first position of a column in the list. */
  lemma FirstOccurrence(columns: seq<nat>, k: nat) returns (j: nat)
    requires k < |columns|
    ensures j <= k && columns[j] == columns[k] && columns[j] !in columns[..j]
  {
    j := 0;
    while columns[j] != columns[k]
      invariant j <= k && columns[k] !in columns[..j]
      decreases k - j
    {
      assert columns[..j + 1] == columns[..j] + [columns[j]];
      j := j + 1;
    }
  }

  lemma ChangedRow(sample: Row, width: nat, permitted: Permitted, c: nat, u: string, d: nat, x: string) returns (r: Row)
    requires IsRow(sample, width, permitted) && c < width && d < width && c != d
    requires permitted(c, u) && permitted(d, x)
    ensures IsRow(r, width, permitted) && r[c] == u && r[d] == x
    ensures forall m :: 0 <= m < width && m != c && m != d ==> r[m] == sample[m]
  {
    r := sample[c := u][d := x];
  }

  /** Each ambiguity makes a table of two rows come out unordered. */
  lemma AmbiguityMatters(columns: seq<nat>, width: nat, permitted: Permitted, sample: Row, k: nat, l: nat,
                         u: string, v: string, x: string, y: string) returns (ls: seq<Row>)
    requires forall m :: 0 <= m < |columns| ==> columns[m] < width
    requires IsRow(sample, width, permitted)
    requires IsAmbiguity(columns, permitted, k, l, u, v, x, y) && !AtMost(Lower(x), Lower(y))
    ensures IsTable(ls, width, permitted) && !ComesOutOrdered(ls, columns)
  {
    hide Lower, AtMost, SortByColumns, MayPrecede;
    var c, d := columns[k], columns[l];
    assert columns[..l][k] == c;
    var p := ChangedRow(sample, width, permitted, c, u, d, x);
    var q := ChangedRow(sample, width, permitted, c, v, d, y);
    var j := FirstOccurrence(columns, k);
    forall m | 0 <= m < l
      ensures columns[m] != d
      ensures m < j ==> columns[m] != c
    {
      assert columns[m] == columns[..l][m];
      assert m < j ==> columns[m] == columns[..j][m];
    }
    PairIsSorted(p, q, columns, j);
    LaterColumnDecides(p, q, columns, l);
    ls := Pair(p, q, j % 2 == 1);
    assert !MayPrecede([p, q][0], [p, q][1], columns);
  }

  // Tables without ambiguities

  lemma TableHasColumns(ls: seq<Row>, width: nat, permitted: Permitted, columns: seq<nat>)
    requires IsTable(ls, width, permitted) && forall m :: 0 <= m < |columns| ==> columns[m] < width
    ensures HaveColumns(ls, columns)
  {
  }

  lemma TableIsUnambiguous(ls: seq<Row>, width: nat, permitted: Permitted, columns: seq<nat>)
    requires IsTable(ls, width, permitted) && forall m :: 0 <= m < |columns| ==> columns[m] < width
    requires !MayBeAmbiguous(columns, permitted)
    ensures IsUnambiguous(ls, columns)
  {
    hide Lower;
    TableHasColumns(ls, width, permitted, columns);
    forall k, l | 0 <= k < l < |columns|
      ensures PairIsUnambiguous(ls, columns, k, l)
    {
      var c, d := columns[k], columns[l];
      assert HaveColumn(ls, c) && HaveColumn(ls, d);
      if !NoVariants(ls, c) && !SameKeys(ls, d) {
        var i, j :| 0 <= i < |ls| && 0 <= j < |ls| && Key(ls[i], c) == Key(ls[j], c) && ls[i][c] != ls[j][c];
        var m, n :| 0 <= m < |ls| && 0 <= n < |ls| && Key(ls[m], d) != Key(ls[n], d);
        assert !IsAmbiguity(columns, permitted, k, l, ls[i][c], ls[j][c], ls[m][d], ls[n][d]);
      }
    }
  }

  /** All tables over the permitted values come out ordered by all columns if and
      only if no key column in which two values differ only in case is followed
      by another key column in which there are different values. */
  lemma OrderedExactlyIf(columns: seq<nat>, width: nat, permitted: Permitted, sample: Row)
    requires forall m :: 0 <= m < |columns| ==> columns[m] < width
    requires IsRow(sample, width, permitted)
    ensures (forall ls {:trigger ComesOutOrdered(ls, columns)} ::
               IsTable(ls, width, permitted) ==> ComesOutOrdered(ls, columns))
       <==> !MayBeAmbiguous(columns, permitted)
  {
    hide Lower, AtMost, SortByColumns, ComesOutOrdered, IsTable;
    if MayBeAmbiguous(columns, permitted) {
      var k, l, u, v, x, y :| IsAmbiguity(columns, permitted, k, l, u, v, x, y);
      AtMostIsTotal(Lower(x), Lower(y));
      var ls;
      if AtMost(Lower(x), Lower(y)) {
        ls := AmbiguityMatters(columns, width, permitted, sample, k, l, u, v, y, x);
      } else {
        ls := AmbiguityMatters(columns, width, permitted, sample, k, l, u, v, x, y);
      }
    } else {
      forall ls | IsTable(ls, width, permitted)
        ensures ComesOutOrdered(ls, columns)
      {
        UnambiguousIsOrdered(ls, width, permitted, columns);
      }
    }
  }

  lemma UnambiguousIsOrdered(ls: seq<Row>, width: nat, permitted: Permitted, columns: seq<nat>)
    requires IsTable(ls, width, permitted) && forall m :: 0 <= m < |columns| ==> columns[m] < width
    requires !MayBeAmbiguous(columns, permitted)
    ensures ComesOutOrdered(ls, columns)
  {
    hide IsTable, MayBeAmbiguous, IsUnambiguous, IsOrdered, SortByColumns;
    TableHasColumns(ls, width, permitted, columns);
    TableIsUnambiguous(ls, width, permitted, columns);
    OrderedByAllColumns(ls, columns);
  }

  /** Any two values which differ only in case break the order by a second
      column. */
  lemma VariantsBreakOrder(u: string, v: string)
    requires AreVariants(u, v)
    ensures
      var ls := [[u, "2"], [v, "1"]];
      HaveColumns(ls, [0, 1]) && SortByColumns(ls, [0, 1]) == ls && !ComesOutOrdered(ls, [0, 1])
  {
    hide SortByColumns, MayPrecede;
    var p, q := [u, "2"], [v, "1"];
    DigitsDiffer(p, q);
    hide Lower;
    SeparateGroups(p, q, [0, 1]);
    LaterColumnDecides(p, q, [0, 1], 1);
    assert !MayPrecede([p, q][0], [p, q][1], [0, 1]);
  }

  lemma DigitsDiffer(p: Row, q: Row)
    requires |p| == 2 && |q| == 2 && p[1] == "2" && q[1] == "1"
    ensures !AtMost(Key(p, 1), Key(q, 1))
  {
    assert "2"[1..] == "" && "1"[1..] == "";
    assert Key(p, 1) == "2" && Key(q, 1) == "1";
  }
}
