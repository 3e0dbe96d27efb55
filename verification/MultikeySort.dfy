/** Sorting the rows of a parts list by several columns. */
module MultikeySort {
  import opened Sequences
  import opened PartsList

  ghost predicate HaveColumns(ls: seq<Row>, columns: seq<nat>) {
    forall k :: 0 <= k < |columns| ==> HaveColumn(ls, columns[k])
  }

  /** The length of the list up to the last row which has exactly the same
      value as the first row. */
  function MatchLength(ls: seq<Row>, column: nat, value: string): (n: nat)
    requires HaveColumn(ls, column)
    ensures n <= |ls|
    ensures n > 0 ==> ls[n - 1][column] == value
    ensures forall i :: n <= i < |ls| ==> ls[i][column] != value
  {
    if ls == [] then 0
    else
      var k := |ls| - 1;
      if ls[k][column] == value then |ls| else MatchLength(ls[..k], column, value)
  }

  /** Search for the last matching row from the end of the list. */
  method FindMatchLength(ls: seq<Row>, column: nat, value: string) returns (n: nat)
    requires HaveColumn(ls, column)
    ensures n == MatchLength(ls, column, value)
  {
    n := 0;
    var i := 0;
    assert ls[..|ls|] == ls;
    while i < |ls|
      invariant 0 <= i <= |ls|
      invariant MatchLength(ls[..|ls| - i], column, value) == MatchLength(ls, column, value)
    {
      var x := ls[|ls| - 1 - i];
      assert ls[..|ls| - i][..|ls| - i - 1] == ls[..|ls| - i - 1];
      if x[column] == value {
        n := |ls| - i;
        break;
      }
      i := i + 1;
    }
  }

  function Reversed(ls: seq<Row>): (r: seq<Row>)
    ensures |r| == |ls| && forall i :: 0 <= i < |ls| ==> r[i] == ls[|ls| - 1 - i]
  {
    seq(|ls|, i requires 0 <= i < |ls| => ls[|ls| - 1 - i])
  }

  lemma {:induction false} ReversedRows(ls: seq<Row>)
    ensures multiset(Reversed(ls)) == multiset(ls)
  {
    if ls != [] {
      var k := |ls| - 1;
      ReversedRows(ls[..k]);
      assert ls == ls[..k] + [ls[k]];
      assert Reversed(ls) == [ls[k]] + Reversed(ls[..k]);
    }
  }

  lemma PartHasColumns(part: seq<Row>, ls: seq<Row>, columns: seq<nat>)
    requires HaveColumns(ls, columns) && multiset(part) <= multiset(ls)
    ensures HaveColumns(part, columns)
  {
    forall k, i | 0 <= k < |columns| && 0 <= i < |part|
      ensures columns[k] < |part[i]|
    {
      assert part[i] in multiset(part) && part[i] in ls;
      assert HaveColumn(ls, columns[k]);
    }
  }

  /** The first group of rows and the others, after sorting by a column. */
  function FirstGroup(ls: seq<Row>, column: nat): (n: nat)
    requires HaveColumn(ls, column) && ls != []
    ensures 0 < n <= |ls|
  {
    var s := MergeSort(ls, column);
    MatchLength(s, column, s[0][column])
  }

  /** The rows of the first group, in reverse order. */
  function Group(ls: seq<Row>, column: nat): seq<Row>
    requires HaveColumn(ls, column) && ls != []
  {
    Reversed(MergeSort(ls, column)[..FirstGroup(ls, column)])
  }

  function Others(ls: seq<Row>, column: nat): (r: seq<Row>)
    requires HaveColumn(ls, column) && ls != []
    ensures |r| < |ls|
  {
    MergeSort(ls, column)[FirstGroup(ls, column)..]
  }

  lemma GroupsKeepRows(ls: seq<Row>, column: nat)
    requires HaveColumn(ls, column) && ls != []
    ensures multiset(Group(ls, column)) + multiset(Others(ls, column)) == multiset(ls)
    ensures multiset(Group(ls, column)) <= multiset(ls) && multiset(Others(ls, column)) <= multiset(ls)
  {
    hide MergeSort, FirstGroup, Reversed;
    var s, n := MergeSort(ls, column), FirstGroup(ls, column);
    SortKeepsRows(ls, column);
    ReversedRows(s[..n]);
    ElementsOfSum(s[..n], s[n..]);
    assert s == s[..n] + s[n..];
    PartsOfSum(multiset(s[..n]), multiset(s[n..]));
  }

  lemma PartsOfSum(a: multiset<Row>, b: multiset<Row>)
    ensures a <= a + b && b <= a + b
  {
  }

  lemma GroupsHaveColumns(ls: seq<Row>, columns: seq<nat>)
    requires HaveColumns(ls, columns) && ls != [] && columns != []
    ensures HaveColumn(ls, columns[0])
    ensures HaveColumns(Group(ls, columns[0]), columns) && HaveColumns(Group(ls, columns[0]), columns[1..])
    ensures HaveColumns(Others(ls, columns[0]), columns)
  {
    hide Group, Others;
    assert HaveColumn(ls, columns[0]);
    GroupsKeepRows(ls, columns[0]);
    PartHasColumns(Group(ls, columns[0]), ls, columns);
    PartHasColumns(Others(ls, columns[0]), ls, columns);
  }

  /** Sort by the first column, then sort the first group by the other columns
      and the remaining rows by all columns. */
  function SortByColumns(ls: seq<Row>, columns: seq<nat>): (r: seq<Row>)
    requires HaveColumns(ls, columns)
    decreases |columns|, |ls|
  {
    if |ls| <= 1 || columns == [] then ls
    else
      GroupsHaveColumns(ls, columns);
      SortByColumns(Group(ls, columns[0]), columns[1..]) + SortByColumns(Others(ls, columns[0]), columns)
  }

  method SortByColumnsRecursively(ls: seq<Row>, columns: seq<nat>) returns (r: seq<Row>)
    requires HaveColumns(ls, columns)
    ensures r == SortByColumns(ls, columns)
    decreases |columns|, |ls|
  {
    if |ls| <= 1 || columns == [] {
      return ls;
    }
    GroupsHaveColumns(ls, columns);
    var s := MergeSort(ls, columns[0]);
    var n := FindMatchLength(s, columns[0], s[0][columns[0]]);
    var a := SortByColumnsRecursively(Reversed(s[..n]), columns[1..]);
    var b := SortByColumnsRecursively(s[n..], columns);
    r := a + b;
  }

  /** Sorting keeps all rows. */
  lemma {:induction false} ColumnsKeepRows(ls: seq<Row>, columns: seq<nat>)
    requires HaveColumns(ls, columns)
    ensures multiset(SortByColumns(ls, columns)) == multiset(ls)
    decreases |columns|, |ls|
  {
    hide Group, Others;
    if |ls| > 1 && columns != [] {
      GroupsHaveColumns(ls, columns);
      GroupsKeepRows(ls, columns[0]);
      ColumnsKeepRows(Group(ls, columns[0]), columns[1..]);
      ColumnsKeepRows(Others(ls, columns[0]), columns);
      ElementsOfSum(SortByColumns(Group(ls, columns[0]), columns[1..]), SortByColumns(Others(ls, columns[0]), columns));
    }
  }

  // Order

  /** Whether a row may stand before another one, comparing column by column. */
  predicate MayPrecede(a: Row, b: Row, columns: seq<nat>)
    requires forall k :: 0 <= k < |columns| ==> columns[k] < |a| && columns[k] < |b|
  {
    columns == []
    || (Key(a, columns[0]) != Key(b, columns[0]) && AtMost(Key(a, columns[0]), Key(b, columns[0])))
    || (Key(a, columns[0]) == Key(b, columns[0]) && MayPrecede(a, b, columns[1..]))
  }

  ghost predicate IsOrdered(ls: seq<Row>, columns: seq<nat>)
    requires HaveColumns(ls, columns)
  {
    forall i, j :: 0 <= i < j < |ls| ==>
      RowsHaveColumns(ls, columns, i, j) && MayPrecede(ls[i], ls[j], columns)
  }

  ghost predicate RowsHaveColumns(ls: seq<Row>, columns: seq<nat>, i: nat, j: nat)
    requires i < |ls| && j < |ls|
  {
    forall k :: 0 <= k < |columns| ==> columns[k] < |ls[i]| && columns[k] < |ls[j]|
  }

  /** Whether values in a column which only differ in case are the same. */
  ghost predicate NoVariants(ls: seq<Row>, column: nat) {
    && HaveColumn(ls, column)
    && forall i, j :: 0 <= i < |ls| && 0 <= j < |ls| ==>
         (Key(ls[i], column) == Key(ls[j], column) ==> ls[i][column] == ls[j][column])
  }

  /** Whether all values in a column are the same, apart from case. */
  ghost predicate SameKeys(ls: seq<Row>, column: nat) {
    && HaveColumn(ls, column)
    && forall i, j :: 0 <= i < |ls| && 0 <= j < |ls| ==> Key(ls[i], column) == Key(ls[j], column)
  }

  /** Whether values which differ only in case can't matter: none are followed
      by a column which still has to be sorted. */
  ghost predicate IsUnambiguous(ls: seq<Row>, columns: seq<nat>) {
    forall k, l :: 0 <= k < l < |columns| ==> PairIsUnambiguous(ls, columns, k, l)
  }

  ghost predicate PairIsUnambiguous(ls: seq<Row>, columns: seq<nat>, k: nat, l: nat)
    requires k < l < |columns|
  {
    NoVariants(ls, columns[k]) || SameKeys(ls, columns[l]) || columns[l] in columns[..l]
  }

  ghost predicate AllHaveKey(ls: seq<Row>, column: nat, key: string) {
    forall i :: 0 <= i < |ls| ==> column < |ls[i]| && Key(ls[i], column) == key
  }

  ghost predicate NoneComesBefore(ls: seq<Row>, column: nat, key: string) {
    forall i :: 0 <= i < |ls| ==> column < |ls[i]| && AtMost(key, Key(ls[i], column))
  }

  lemma SameRowsSameKey(a: seq<Row>, b: seq<Row>, column: nat, key: string)
    requires multiset(a) == multiset(b) && AllHaveKey(b, column, key)
    ensures AllHaveKey(a, column, key)
  {
    hide Key;
    forall i | 0 <= i < |a|
      ensures column < |a[i]| && Key(a[i], column) == key
    {
      assert a[i] in multiset(a) && a[i] in b;
    }
  }

  lemma SameRowsNotBefore(a: seq<Row>, b: seq<Row>, column: nat, key: string)
    requires multiset(a) == multiset(b) && NoneComesBefore(b, column, key)
    ensures NoneComesBefore(a, column, key)
  {
    hide Key, AtMost;
    forall i | 0 <= i < |a|
      ensures column < |a[i]| && AtMost(key, Key(a[i], column))
    {
      assert a[i] in multiset(a) && a[i] in b;
    }
  }

  ghost predicate NoneHasValue(ls: seq<Row>, column: nat, value: string) {
    forall i :: 0 <= i < |ls| ==> column < |ls[i]| && ls[i][column] != value
  }

  lemma SameRowsNoValue(a: seq<Row>, b: seq<Row>, column: nat, value: string)
    requires multiset(a) == multiset(b) && NoneHasValue(b, column, value)
    ensures NoneHasValue(a, column, value)
  {
    forall i | 0 <= i < |a|
      ensures column < |a[i]| && a[i][column] != value
    {
      assert a[i] in multiset(a) && a[i] in b;
    }
  }

  /** The value by which the first group has been found. */
  function FirstValue(ls: seq<Row>, column: nat): string
    requires HaveColumn(ls, column) && ls != []
  {
    MergeSort(ls, column)[0][column]
  }

  /** All rows of the first group have the same value, apart from case, no other
      row comes before them, and no other row has exactly this value. */
  lemma FirstGroupIsFirst(ls: seq<Row>, column: nat)
    requires HaveColumn(ls, column) && ls != []
    ensures AllHaveKey(Group(ls, column), column, Lower(FirstValue(ls, column)))
    ensures NoneComesBefore(Others(ls, column), column, Lower(FirstValue(ls, column)))
    ensures NoneHasValue(Others(ls, column), column, FirstValue(ls, column))
  {
    hide AtMost, Lower, MergeSort;
    var s, n := MergeSort(ls, column), FirstGroup(ls, column);
    SortSorts(ls, column);
    assert Key(s[n - 1], column) == Key(s[0], column);
    AtMostIsTotal(Key(s[0], column), Key(s[0], column));
    forall i | 0 <= i < n
      ensures Key(s[i], column) == Key(s[0], column)
    {
      if 0 < i < n - 1 {
        AtMostIsTotal(Key(s[0], column), Key(s[i], column));
      }
    }
  }

  /** What the two parts of the sorted list consist of. */
  lemma Parts(ls: seq<Row>, columns: seq<nat>)
    requires HaveColumns(ls, columns) && ls != [] && columns != []
    ensures HaveColumn(ls, columns[0])
    ensures HaveColumns(Group(ls, columns[0]), columns[1..]) && HaveColumns(Others(ls, columns[0]), columns)
    ensures AllHaveKey(SortByColumns(Group(ls, columns[0]), columns[1..]), columns[0], Lower(FirstValue(ls, columns[0])))
    ensures NoneComesBefore(SortByColumns(Others(ls, columns[0]), columns), columns[0], Lower(FirstValue(ls, columns[0])))
    ensures NoneHasValue(SortByColumns(Others(ls, columns[0]), columns), columns[0], FirstValue(ls, columns[0]))
  {
    hide AtMost, Lower, Key, Group, Others, FirstValue, SortByColumns, AllHaveKey, NoneComesBefore, NoneHasValue;
    GroupsHaveColumns(ls, columns);
    var a, b := Group(ls, columns[0]), Others(ls, columns[0]);
    var value := FirstValue(ls, columns[0]);
    FirstGroupIsFirst(ls, columns[0]);
    ColumnsKeepRows(a, columns[1..]);
    ColumnsKeepRows(b, columns);
    SameRowsSameKey(SortByColumns(a, columns[1..]), a, columns[0], Lower(value));
    SameRowsNotBefore(SortByColumns(b, columns), b, columns[0], Lower(value));
    SameRowsNoValue(SortByColumns(b, columns), b, columns[0], value);
  }

  lemma JoinSorted(a: seq<Row>, b: seq<Row>, column: nat, key: string)
    requires AllHaveKey(a, column, key) && NoneComesBefore(b, column, key)
    requires HaveColumn(b, column) && IsSorted(b, column)
    ensures HaveColumn(a + b, column) && IsSorted(a + b, column)
  {
    hide Key, AtMost;
    AtMostIsTotal(key, key);
  }

  /** The rows are always in the order of the first column. */
  lemma {:induction false} OrderedByFirstColumn(ls: seq<Row>, columns: seq<nat>)
    requires HaveColumns(ls, columns) && columns != []
    ensures
      var r := SortByColumns(ls, columns);
      HaveColumn(r, columns[0]) && IsSorted(r, columns[0])
    decreases |ls|
  {
    hide Key, AtMost, Lower, Group, Others, FirstValue;
    assert HaveColumn(ls, columns[0]);
    if |ls| > 1 {
      Parts(ls, columns);
      OrderedByFirstColumn(Others(ls, columns[0]), columns);
      JoinSorted(SortByColumns(Group(ls, columns[0]), columns[1..]), SortByColumns(Others(ls, columns[0]), columns),
                 columns[0], Lower(FirstValue(ls, columns[0])));
    }
  }

  // Lexicographic order

  /** Some of the rows. */
  ghost predicate AreAmong(a: seq<Row>, ls: seq<Row>) {
    forall i :: 0 <= i < |a| ==> a[i] in ls
  }

  lemma PartIsAmong(a: seq<Row>, ls: seq<Row>)
    requires multiset(a) <= multiset(ls)
    ensures AreAmong(a, ls)
  {
    forall i | 0 <= i < |a|
      ensures a[i] in ls
    {
      assert a[i] in multiset(a);
    }
  }

  lemma AmongNoVariants(a: seq<Row>, ls: seq<Row>, column: nat)
    requires AreAmong(a, ls) && NoVariants(ls, column)
    ensures NoVariants(a, column)
  {
    hide Key;
    forall i, j | 0 <= i < |a| && 0 <= j < |a|
      ensures column < |a[i]| && column < |a[j]|
      ensures Key(a[i], column) == Key(a[j], column) ==> a[i][column] == a[j][column]
    {
      assert a[i] in ls && a[j] in ls;
    }
  }

  lemma AmongSameKeys(a: seq<Row>, ls: seq<Row>, column: nat)
    requires AreAmong(a, ls) && SameKeys(ls, column)
    ensures SameKeys(a, column)
  {
    hide Key;
    forall i, j | 0 <= i < |a| && 0 <= j < |a|
      ensures column < |a[i]| && column < |a[j]| && Key(a[i], column) == Key(a[j], column)
    {
      assert a[i] in ls && a[j] in ls;
    }
  }

  lemma OthersAreUnambiguous(a: seq<Row>, ls: seq<Row>, columns: seq<nat>)
    requires AreAmong(a, ls) && IsUnambiguous(ls, columns)
    ensures IsUnambiguous(a, columns)
  {
    hide NoVariants, SameKeys;
    forall k, l | 0 <= k < l < |columns|
      ensures PairIsUnambiguous(a, columns, k, l)
    {
      assert PairIsUnambiguous(ls, columns, k, l);
      if NoVariants(ls, columns[k]) {
        AmongNoVariants(a, ls, columns[k]);
      } else if SameKeys(ls, columns[l]) {
        AmongSameKeys(a, ls, columns[l]);
      }
    }
  }

  lemma GroupIsUnambiguous(a: seq<Row>, ls: seq<Row>, columns: seq<nat>)
    requires AreAmong(a, ls) && IsUnambiguous(ls, columns)
    requires columns != [] && SameKeys(a, columns[0])
    ensures IsUnambiguous(a, columns[1..])
  {
    hide NoVariants, SameKeys;
    var some := columns[1..];
    OthersAreUnambiguous(a, ls, columns);
    forall k, l | 0 <= k < l < |some|
      ensures PairIsUnambiguous(a, some, k, l)
    {
      assert PairIsUnambiguous(a, columns, k + 1, l + 1);
      if some[l] in columns[..l + 1] && some[l] != columns[0] {
        assert columns[..l + 1] == [columns[0]] + some[..l];
      }
    }
  }

  lemma JoinOrdered(a: seq<Row>, b: seq<Row>, columns: seq<nat>, key: string)
    requires columns != [] && HaveColumns(a, columns) && HaveColumns(b, columns)
    requires HaveColumns(a, columns[1..]) && IsOrdered(a, columns[1..]) && IsOrdered(b, columns)
    requires AllHaveKey(a, columns[0], key)
    requires forall i :: 0 <= i < |b| ==> columns[0] < |b[i]| && AtMost(key, Key(b[i], columns[0])) && Key(b[i], columns[0]) != key
    ensures HaveColumns(a + b, columns) && IsOrdered(a + b, columns)
  {
    hide Key, AtMost;
    var s := a + b;
    assert HaveColumns(s, columns) by {
      ElementsOfSum(a, b);
      forall k, i | 0 <= k < |columns| && 0 <= i < |s|
        ensures columns[k] < |s[i]|
      {
        assert HaveColumn(a, columns[k]) && HaveColumn(b, columns[k]);
      }
    }
    forall i, j | 0 <= i < j < |s|
      ensures RowsHaveColumns(s, columns, i, j) && MayPrecede(s[i], s[j], columns)
    {
      forall k | 0 <= k < |columns|
        ensures columns[k] < |s[i]| && columns[k] < |s[j]|
      {
        assert HaveColumn(s, columns[k]);
      }
      if j < |a| {
        assert s[i] == a[i] && s[j] == a[j];
        assert MayPrecede(a[i], a[j], columns[1..]);
      } else if i >= |a| {
        assert s[i] == b[i - |a|] && s[j] == b[j - |a|];
      }
    }
  }

  /** Unless values which differ only in case matter, the rows are ordered by all
      columns. */
  lemma {:induction false} OrderedByAllColumns(ls: seq<Row>, columns: seq<nat>)
    requires HaveColumns(ls, columns) && IsUnambiguous(ls, columns)
    ensures HaveColumns(SortByColumns(ls, columns), columns) && IsOrdered(SortByColumns(ls, columns), columns)
    decreases |columns|, |ls|
  {
    hide Key, AtMost, Lower, Group, Others, FirstValue, MayPrecede, IsOrdered, IsUnambiguous, NoVariants, SameKeys,
         AreAmong;
    if |ls| <= 1 || columns == [] {
      TriviallyOrdered(ls, columns);
    } else if NoVariants(ls, columns[0]) {
      Parts(ls, columns);
      GroupsKeepRows(ls, columns[0]);
      GroupsHaveColumns(ls, columns);
      var a, b := Group(ls, columns[0]), Others(ls, columns[0]);
      PartIsAmong(a, ls);
      PartIsAmong(b, ls);
      GroupHasSameKeys(ls, columns[0]);
      GroupIsUnambiguous(a, ls, columns);
      OthersAreUnambiguous(b, ls, columns);
      OrderedByAllColumns(a, columns[1..]);
      OrderedByAllColumns(b, columns);
      OthersComeLater(ls, columns);
      ColumnsKeepRows(a, columns[1..]);
      PartHasColumns(SortByColumns(a, columns[1..]), a, columns);
      JoinOrdered(SortByColumns(a, columns[1..]), SortByColumns(b, columns), columns, Lower(FirstValue(ls, columns[0])));
    } else {
      FirstColumnDecides(ls, columns);
    }
  }

  lemma GroupHasSameKeys(ls: seq<Row>, column: nat)
    requires HaveColumn(ls, column) && ls != []
    ensures SameKeys(Group(ls, column), column)
  {
    hide Key, Lower, Group, FirstValue;
    FirstGroupIsFirst(ls, column);
  }

  /** Rows which agree in all columns may stand in any order. */
  lemma {:induction false} EqualMayPrecede(a: Row, b: Row, columns: seq<nat>)
    requires forall k :: 0 <= k < |columns| ==>
      columns[k] < |a| && columns[k] < |b| && Key(a, columns[k]) == Key(b, columns[k])
    ensures MayPrecede(a, b, columns)
  {
    hide Key, AtMost;
    if columns != [] {
      EqualMayPrecede(a, b, columns[1..]);
    }
  }

  lemma {:induction false} LaterKeysAgree(r: seq<Row>, columns: seq<nat>, a: Row, b: Row, l: nat)
    requires l < |columns| && a in r && b in r
    requires columns[0] < |a| && columns[0] < |b| && Key(a, columns[0]) == Key(b, columns[0])
    requires forall m :: 0 < m < |columns| ==> SameKeys(r, columns[m]) || columns[m] in columns[..m]
    ensures columns[l] < |a| && columns[l] < |b| && Key(a, columns[l]) == Key(b, columns[l])
  {
    hide Key;
    if l > 0 {
      if SameKeys(r, columns[l]) {
        assert HaveColumn(r, columns[l]);
      } else {
        var m :| 0 <= m < l && columns[m] == columns[l];
        LaterKeysAgree(r, columns, a, b, m);
      }
    }
  }

  /** If there are such values in the first column, all columns which matter
      have got the same values. */
  lemma FirstColumnDecides(ls: seq<Row>, columns: seq<nat>)
    requires HaveColumns(ls, columns) && IsUnambiguous(ls, columns)
    requires columns != [] && !NoVariants(ls, columns[0])
    ensures HaveColumns(SortByColumns(ls, columns), columns) && IsOrdered(SortByColumns(ls, columns), columns)
  {
    hide Key, AtMost, NoVariants, SameKeys, SortByColumns, MayPrecede;
    var r := SortByColumns(ls, columns);
    ColumnsKeepRows(ls, columns);
    PartHasColumns(r, ls, columns);
    PartIsAmong(r, ls);
    OrderedByFirstColumn(ls, columns);
    forall m | 0 < m < |columns|
      ensures SameKeys(r, columns[m]) || columns[m] in columns[..m]
    {
      assert PairIsUnambiguous(ls, columns, 0, m);
      if SameKeys(ls, columns[m]) {
        AmongSameKeys(r, ls, columns[m]);
      }
    }
    forall i, j | 0 <= i < j < |r|
      ensures RowsHaveColumns(r, columns, i, j) && MayPrecede(r[i], r[j], columns)
    {
      forall k | 0 <= k < |columns|
        ensures columns[k] < |r[i]| && columns[k] < |r[j]|
      {
        assert HaveColumn(r, columns[k]);
      }
      if Key(r[i], columns[0]) == Key(r[j], columns[0]) {
        forall l | 0 <= l < |columns|
          ensures columns[l] < |r[i]| && columns[l] < |r[j]| && Key(r[i], columns[l]) == Key(r[j], columns[l])
        {
          LaterKeysAgree(r, columns, r[i], r[j], l);
        }
        EqualMayPrecede(r[i], r[j], columns);
      } else {
        FirstMayPrecede(r[i], r[j], columns);
      }
    }
  }

  lemma FirstMayPrecede(a: Row, b: Row, columns: seq<nat>)
    requires columns != [] && forall k :: 0 <= k < |columns| ==> columns[k] < |a| && columns[k] < |b|
    requires Key(a, columns[0]) != Key(b, columns[0]) && AtMost(Key(a, columns[0]), Key(b, columns[0]))
    ensures MayPrecede(a, b, columns)
  {
  }

  lemma TriviallyOrdered(ls: seq<Row>, columns: seq<nat>)
    requires HaveColumns(ls, columns) && (|ls| <= 1 || columns == [])
    ensures IsOrdered(ls, columns)
  {
  }

  lemma OthersComeLater(ls: seq<Row>, columns: seq<nat>)
    requires HaveColumns(ls, columns) && ls != [] && columns != [] && NoVariants(ls, columns[0])
    ensures HaveColumn(ls, columns[0]) && HaveColumns(Others(ls, columns[0]), columns)
    ensures
      var r := SortByColumns(Others(ls, columns[0]), columns);
      forall i :: 0 <= i < |r| ==>
        columns[0] < |r[i]| && Key(r[i], columns[0]) != Lower(FirstValue(ls, columns[0]))
  {
    hide AtMost, Lower, Group, Others;
    Parts(ls, columns);
    GroupsKeepRows(ls, columns[0]);
    SortKeepsRows(ls, columns[0]);
    ColumnsKeepRows(Others(ls, columns[0]), columns);
    var r := SortByColumns(Others(ls, columns[0]), columns);
    var first := MergeSort(ls, columns[0])[0];
    forall i | 0 <= i < |r|
      ensures columns[0] < |r[i]| && Key(r[i], columns[0]) != Lower(FirstValue(ls, columns[0]))
    {
      assert r[i] in multiset(r) && r[i] in ls;
      assert first in multiset(MergeSort(ls, columns[0])) && first in ls;
      var x :| 0 <= x < |ls| && ls[x] == r[i];
      var y :| 0 <= y < |ls| && ls[y] == first;
    }
  }
}
