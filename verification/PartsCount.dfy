/** Grouping equal parts of a sorted parts list. */
module PartsCount {
  import opened Wrappers
  import opened Sequences
  import opened Decimals
  import opened PartsList
  import opened MultikeySort
  import opened CaseVariants

  /** Whether all rows at least have a reference designator. */
  ghost predicate HaveDesignators(ls: seq<Row>) {
    forall i :: 0 <= i < |ls| ==> ls[i] != []
  }

  /** The columns by which parts are compared. */
  function Part(x: Row): seq<string>
    requires x != []
  {
    x[1..]
  }

  function Designators(ls: seq<Row>): (r: seq<string>)
    requires HaveDesignators(ls)
    ensures |r| == |ls| && forall i :: 0 <= i < |ls| ==> r[i] == ls[i][0]
  {
    seq(|ls|, i requires 0 <= i < |ls| => ls[i][0])
  }

  /** The length of the list up to the last occurrence of a part. */
  function LastOccurrence(ls: seq<Row>, part: seq<string>): (n: nat)
    requires HaveDesignators(ls)
    ensures n <= |ls|
    ensures n > 0 ==> Part(ls[n - 1]) == part
    ensures forall i :: n <= i < |ls| ==> Part(ls[i]) != part
  {
    if ls == [] then 0
    else
      var k := |ls| - 1;
      if Part(ls[k]) == part then |ls| else LastOccurrence(ls[..k], part)
  }

  method FindLastOccurrence(ls: seq<Row>, part: seq<string>) returns (n: nat)
    requires HaveDesignators(ls)
    ensures n == LastOccurrence(ls, part)
  {
    n := 0;
    var i := 0;
    assert ls[..|ls|] == ls;
    while i < |ls|
      invariant 0 <= i <= |ls|
      invariant LastOccurrence(ls[..|ls| - i], part) == LastOccurrence(ls, part)
    {
      var l := ls[|ls| - 1 - i];
      assert ls[..|ls| - i][..|ls| - i - 1] == ls[..|ls| - i - 1];
      if l[1..] == part {
        n := |ls| - i;
        break;
      }
      i := i + 1;
    }
  }

  /** An entry of the parts list: reference designators and columns, the last
      one being the quantity. */
  datatype Entry = Entry(designators: seq<string>, columns: seq<string>)

  function CountSameParts(ls: seq<Row>): seq<Entry>
    requires HaveDesignators(ls)
    decreases |ls|
  {
    if ls == [] then []
    else
      var n := LastOccurrence(ls, Part(ls[0]));
      [Entry(Designators(ls[..n]), Part(ls[0]) + [FormatInt(n)])] + CountSameParts(ls[n..])
  }

  method CountPartsRecursively(ls: seq<Row>) returns (r: seq<Entry>)
    requires HaveDesignators(ls)
    ensures r == CountSameParts(ls)
    decreases |ls|
  {
    if ls == [] {
      return [];
    }
    var n := FindLastOccurrence(ls, ls[0][1..]);
    var rest := CountPartsRecursively(ls[n..]);
    r := [Entry(Designators(ls[..n]), ls[0][1..] + [FormatInt(n)])] + rest;
  }

  // Quantities

  function AllDesignators(entries: seq<Entry>): seq<string> {
    if entries == [] then [] else entries[0].designators + AllDesignators(entries[1..])
  }

  /** Each row is counted exactly once, in order, and each quantity is the
      number of designators in its entry. */
  lemma {:induction false} EachRowIsCounted(ls: seq<Row>)
    requires HaveDesignators(ls)
    ensures AllDesignators(CountSameParts(ls)) == Designators(ls)
    ensures forall i :: 0 <= i < |CountSameParts(ls)| ==>
      var e := CountSameParts(ls)[i];
      e.columns != [] && ParseInt(e.columns[|e.columns| - 1]) == Some(|e.designators| as int)
    decreases |ls|
  {
    hide LastOccurrence, ParseInt, FormatInt;
    if ls != [] {
      var n := LastOccurrence(ls, Part(ls[0]));
      var first := Entry(Designators(ls[..n]), Part(ls[0]) + [FormatInt(n)]);
      EachRowIsCounted(ls[n..]);
      ParseFormatted(n);
      assert Designators(ls) == Designators(ls[..n]) + Designators(ls[n..]);
      assert CountSameParts(ls) == [first] + CountSameParts(ls[n..]);
      hide CountSameParts, Designators;
    }
  }

  // When parts are grouped correctly

  function PartOf(e: Entry): seq<string>
    requires e.columns != []
  {
    e.columns[..|e.columns| - 1]
  }

  /** The number of rows with a certain part. */
  function Count(ls: seq<Row>, part: seq<string>): (n: nat)
    requires HaveDesignators(ls)
    ensures n <= |ls|
  {
    if ls == [] then 0 else (if Part(ls[0]) == part then 1 else 0) + Count(ls[1..], part)
  }

  /** Whether each part is listed once, with its exact quantity. */
  ghost predicate IsExact(entries: seq<Entry>, ls: seq<Row>)
    requires HaveDesignators(ls)
  {
    && (forall i :: 0 <= i < |entries| ==>
          entries[i].columns != [] && |entries[i].designators| == Count(ls, PartOf(entries[i])))
    && (forall i, j :: 0 <= i < j < |entries| ==>
          entries[i].columns != [] && entries[j].columns != [] && PartOf(entries[i]) != PartOf(entries[j]))
  }

  /** Whether equal parts stand together. */
  ghost predicate IsContiguous(ls: seq<Row>)
    requires HaveDesignators(ls)
  {
    forall i, j, k :: 0 <= i < j < k < |ls| && Part(ls[i]) == Part(ls[k]) ==> Part(ls[j]) == Part(ls[i])
  }

  lemma {:induction false} CountSplits(a: seq<Row>, b: seq<Row>, part: seq<string>)
    requires HaveDesignators(a) && HaveDesignators(b)
    ensures HaveDesignators(a + b) && Count(a + b, part) == Count(a, part) + Count(b, part)
  {
    if a == [] {
      assert a + b == b;
    } else {
      CountSplits(a[1..], b, part);
      assert (a + b)[1..] == a[1..] + b;
    }
  }

  lemma {:induction false} CountAll(ls: seq<Row>, part: seq<string>)
    requires HaveDesignators(ls)
    ensures Count(ls, part) == |ls| <==> forall i :: 0 <= i < |ls| ==> Part(ls[i]) == part
    ensures Count(ls, part) == 0 <==> forall i :: 0 <= i < |ls| ==> Part(ls[i]) != part
  {
    hide Part;
    if ls != [] {
      CountAll(ls[1..], part);
      assert forall i :: 0 < i < |ls| ==> ls[i] == ls[1..][i - 1];
      assert ls == [ls[0]] + ls[1..];
    }
  }

  /** The entries list exactly the parts which occur. */
  lemma {:induction false} EntriesOccur(ls: seq<Row>, i: nat)
    requires HaveDesignators(ls) && i < |CountSameParts(ls)|
    ensures
      var e := CountSameParts(ls)[i];
      e.columns != [] && exists j :: 0 <= j < |ls| && Part(ls[j]) == PartOf(e)
    decreases |ls|
  {
    hide LastOccurrence, FormatInt, Designators;
    var n := LastOccurrence(ls, Part(ls[0]));
    if i == 0 {
      assert PartOf(CountSameParts(ls)[0]) == Part(ls[0]);
    } else {
      EntriesOccur(ls[n..], i - 1);
      var j :| 0 <= j < |ls[n..]| && Part(ls[n..][j]) == PartOf(CountSameParts(ls)[i]);
      assert ls[n + j] == ls[n..][j];
    }
  }

  lemma OtherPartsCount(ls: seq<Row>, n: nat, part: seq<string>)
    requires HaveDesignators(ls) && n <= |ls|
    requires forall i :: 0 <= i < n ==> Part(ls[i]) != part
    ensures HaveDesignators(ls[n..]) && Count(ls, part) == Count(ls[n..], part)
  {
    hide Part;
    CountSplits(ls[..n], ls[n..], part);
    assert ls == ls[..n] + ls[n..];
    CountAll(ls[..n], part);
  }

  /** The first entry is right if and only if its rows are all equal. */
  lemma FirstEntry(ls: seq<Row>)
    requires HaveDesignators(ls) && ls != []
    ensures
      var n := LastOccurrence(ls, Part(ls[0]));
      && n > 0
      && (n == Count(ls, Part(ls[0])) <==> forall i :: 0 <= i < n ==> Part(ls[i]) == Part(ls[0]))
  {
    hide Part, Count, LastOccurrence;
    var part := Part(ls[0]);
    var n := LastOccurrence(ls, part);
    OtherRowsDontCount(ls, n, part);
    CountAll(ls[..n], part);
    assert forall i :: 0 <= i < n ==> ls[..n][i] == ls[i];
  }

  lemma OtherRowsDontCount(ls: seq<Row>, n: nat, part: seq<string>)
    requires HaveDesignators(ls) && n <= |ls| && forall i :: n <= i < |ls| ==> Part(ls[i]) != part
    ensures HaveDesignators(ls[..n]) && Count(ls, part) == Count(ls[..n], part)
  {
    hide Part, Count;
    CountSplits(ls[..n], ls[n..], part);
    assert ls == ls[..n] + ls[n..];
    CountAll(ls[n..], part);
  }

  lemma ContiguousHasPureGroup(ls: seq<Row>, n: nat)
    requires HaveDesignators(ls) && ls != [] && n == LastOccurrence(ls, Part(ls[0]))
    requires IsContiguous(ls)
    ensures forall i :: 0 <= i < n ==> Part(ls[i]) == Part(ls[0])
    ensures IsContiguous(ls[n..])
  {
    hide Part, LastOccurrence;
    var rest := ls[n..];
    forall i | 0 <= i < n
      ensures Part(ls[i]) == Part(ls[0])
    {
      if 0 < i < n - 1 {
        assert Part(ls[0]) == Part(ls[n - 1]);
      }
    }
    forall i, j, k | 0 <= i < j < k < |rest| && Part(rest[i]) == Part(rest[k])
      ensures Part(rest[j]) == Part(rest[i])
    {
      assert rest[i] == ls[n + i] && rest[j] == ls[n + j] && rest[k] == ls[n + k];
    }
  }

  lemma PureGroupIsContiguous(ls: seq<Row>, n: nat)
    requires HaveDesignators(ls) && ls != [] && n == LastOccurrence(ls, Part(ls[0]))
    requires forall i :: 0 <= i < n ==> Part(ls[i]) == Part(ls[0])
    requires IsContiguous(ls[n..])
    ensures IsContiguous(ls)
  {
    hide Part, LastOccurrence;
    var rest := ls[n..];
    forall i, j, k | 0 <= i < j < k < |ls| && Part(ls[i]) == Part(ls[k])
      ensures Part(ls[j]) == Part(ls[i])
    {
      if i >= n {
        assert rest[i - n] == ls[i] && rest[j - n] == ls[j] && rest[k - n] == ls[k];
      } else {
        assert Part(ls[k]) == Part(ls[0]) && k < n;
      }
    }
  }

  /** The entries for the remaining rows, counted in all rows. */
  lemma ExactRest(ls: seq<Row>, n: nat)
    requires HaveDesignators(ls) && ls != [] && n == LastOccurrence(ls, Part(ls[0]))
    requires forall i :: 0 <= i < n ==> Part(ls[i]) == Part(ls[0])
    ensures IsExact(CountSameParts(ls), ls) <==> IsExact(CountSameParts(ls[n..]), ls[n..])
  {
    hide LastOccurrence, Count, Part, PartOf, CountSameParts, IsExact;
    var all, rest := CountSameParts(ls), CountSameParts(ls[n..]);
    FirstEntry(ls);
    FirstAndRest(ls, n);
    forall i | 0 <= i < |rest|
      ensures rest[i].columns != [] && PartOf(rest[i]) != Part(ls[0])
      ensures Count(ls, PartOf(rest[i])) == Count(ls[n..], PartOf(rest[i]))
    {
      OccursLater(ls, n, i);
    }
    ExactTail(all, ls, ls[n..]);
  }

  lemma ExactTail(all: seq<Entry>, ls: seq<Row>, tail: seq<Row>)
    requires HaveDesignators(ls) && HaveDesignators(tail)
    requires all != [] && all[0].columns != [] && |all[0].designators| == Count(ls, PartOf(all[0]))
    requires forall i :: 0 <= i < |all[1..]| ==>
      var e := all[1..][i];
      e.columns != [] && PartOf(e) != PartOf(all[0]) && Count(ls, PartOf(e)) == Count(tail, PartOf(e))
    ensures IsExact(all, ls) <==> IsExact(all[1..], tail)
  {
    hide Count, PartOf;
    var rest := all[1..];
    assert forall i :: 0 <= i < |rest| ==> rest[i] == all[i + 1];
    assert forall i :: 0 < i < |all| ==> all[i] == rest[i - 1];
  }

  lemma FirstAndRest(ls: seq<Row>, n: nat)
    requires HaveDesignators(ls) && ls != [] && n == LastOccurrence(ls, Part(ls[0]))
    ensures
      var all := CountSameParts(ls);
      && all != [] && all[1..] == CountSameParts(ls[n..])
      && all[0].columns != [] && PartOf(all[0]) == Part(ls[0]) && |all[0].designators| == n
  {
    hide LastOccurrence, FormatInt, Part;
  }

  /** The parts of the remaining entries don't occur in the first group. */
  lemma OccursLater(ls: seq<Row>, n: nat, i: nat)
    requires HaveDesignators(ls) && ls != [] && n == LastOccurrence(ls, Part(ls[0]))
    requires forall i :: 0 <= i < n ==> Part(ls[i]) == Part(ls[0])
    requires i < |CountSameParts(ls[n..])|
    ensures
      var e := CountSameParts(ls[n..])[i];
      e.columns != [] && PartOf(e) != Part(ls[0]) && Count(ls, PartOf(e)) == Count(ls[n..], PartOf(e))
  {
    hide LastOccurrence, Count, Part, CountSameParts;
    var rest := CountSameParts(ls[n..]);
    EntriesOccur(ls[n..], i);
    var j :| 0 <= j < |ls[n..]| && Part(ls[n..][j]) == PartOf(rest[i]);
    assert ls[n + j] == ls[n..][j];
    OtherPartsCount(ls, n, PartOf(rest[i]));
  }

  /** The quantities are right if and only if equal parts stand together. */
  lemma {:induction false} ExactExactlyIf(ls: seq<Row>)
    requires HaveDesignators(ls)
    ensures IsExact(CountSameParts(ls), ls) <==> IsContiguous(ls)
    decreases |ls|
  {
    hide Count, FormatInt, IsContiguous;
    if ls == [] {
      NothingIsContiguous();
    } else {
      var n := LastOccurrence(ls, Part(ls[0]));
      FirstEntry(ls);
      if IsContiguous(ls) {
        ContiguousHasPureGroup(ls, n);
      }
      if forall i :: 0 <= i < n ==> Part(ls[i]) == Part(ls[0]) {
        ExactExactlyIf(ls[n..]);
        ExactRest(ls, n);
        if IsContiguous(ls[n..]) {
          PureGroupIsContiguous(ls, n);
        }
      } else {
        var e := CountSameParts(ls)[0];
        assert PartOf(e) == Part(ls[0]) && |e.designators| == n;
      }
    }
  }

  lemma NothingIsContiguous()
    ensures IsContiguous([])
  {
  }

  /** The number of rows doesn't depend on their order. */
  lemma {:induction false} CountOfPermutation(a: seq<Row>, b: seq<Row>, part: seq<string>)
    requires HaveDesignators(a) && HaveDesignators(b) && multiset(a) == multiset(b)
    ensures Count(a, part) == Count(b, part)
    decreases |a|
  {
    hide Part;
    if a == [] {
      assert |multiset(b)| == 0;
    } else {
      ElementsOfRest(a);
      assert a[0] in multiset(b) && a[0] in b;
      var k :| 0 <= k < |b| && b[k] == a[0];
      ElementsWithout(b, k);
      CancelElement(a[0], multiset(a[1..]), multiset(b[..k] + b[k + 1..]));
      CountWithout(b, k, part);
      CountOfPermutation(a[1..], b[..k] + b[k + 1..], part);
    }
  }

  lemma CountWithout(ls: seq<Row>, k: nat, part: seq<string>)
    requires HaveDesignators(ls) && k < |ls|
    ensures HaveDesignators(ls[..k] + ls[k + 1..])
    ensures Count(ls, part) == Count(ls[..k] + ls[k + 1..], part) + if Part(ls[k]) == part then 1 else 0
  {
    hide Part;
    var x, y := ls[..k], ls[k + 1..];
    assert ls == x + ([ls[k]] + y);
    CountSplits([ls[k]], y, part);
    CountSplits(x, [ls[k]] + y, part);
    CountSplits(x, y, part);
    assert Count([ls[k]], part) == (if Part(ls[k]) == part then 1 else 0) + Count([], part);
  }

  // Together

  const COLUMNS: seq<nat> := [1, 2, 3, 0]

  const PART_COLUMNS: seq<nat> := [1, 2, 3]

  ghost predicate HasFourColumns(ls: seq<Row>) {
    forall i :: 0 <= i < |ls| ==> |ls[i]| == 4
  }

  /** Whether values in the part columns which only differ in case are the same. */
  ghost predicate HasNoPartVariants(ls: seq<Row>) {
    NoVariants(ls, 1) && NoVariants(ls, 2) && NoVariants(ls, 3)
  }

  lemma OrderedIsContiguous(ls: seq<Row>)
    requires HasFourColumns(ls) && HaveColumns(ls, COLUMNS)
    requires IsOrdered(ls, COLUMNS) && HasNoPartVariants(ls)
    ensures HaveDesignators(ls) && IsContiguous(ls)
  {
    hide HasNoPartVariants, Part, IsOrdered;
    forall i, j, k | 0 <= i < j < k < |ls| && Part(ls[i]) == Part(ls[k])
      ensures Part(ls[j]) == Part(ls[i])
    {
      Squeezed(ls, i, j, k);
    }
  }

  lemma Squeezed(ls: seq<Row>, i: nat, j: nat, k: nat)
    requires HasFourColumns(ls) && HaveColumns(ls, COLUMNS)
    requires IsOrdered(ls, COLUMNS) && HasNoPartVariants(ls)
    requires i < j < k < |ls| && Part(ls[i]) == Part(ls[k])
    ensures Part(ls[j]) == Part(ls[i])
  {
    hide Lower, AtMost;
    var a, b, c := ls[i], ls[j], ls[k];
    SameParts(a, c);
    assert MayPrecede(a, b, COLUMNS) && MayPrecede(b, c, COLUMNS);
    KeysAgree(a, b, c);
    SameParts(a, b);
  }

  lemma SameParts(a: Row, b: Row)
    requires |a| == |b| == 4
    ensures Part(a) == Part(b) <==> a[1] == b[1] && a[2] == b[2] && a[3] == b[3]
  {
    assert a[1] == Part(a)[0] && a[2] == Part(a)[1] && a[3] == Part(a)[2];
    assert b[1] == Part(b)[0] && b[2] == Part(b)[1] && b[3] == Part(b)[2];
  }

  lemma KeysAgree(a: Row, b: Row, c: Row)
    requires |a| == |b| == |c| == 4
    requires MayPrecede(a, b, COLUMNS) && MayPrecede(b, c, COLUMNS)
    requires a[1] == c[1] && a[2] == c[2] && a[3] == c[3]
    ensures Key(b, 1) == Key(a, 1) && Key(b, 2) == Key(a, 2) && Key(b, 3) == Key(a, 3)
  {
    hide Lower, AtMost, MayPrecede;
    assert COLUMNS[1..] == [2, 3, 0] && [2, 3, 0][1..] == [3, 0];
    KeyAgrees(a, b, c, COLUMNS);
    KeyAgrees(a, b, c, [2, 3, 0]);
    KeyAgrees(a, b, c, [3, 0]);
  }

  lemma KeyAgrees(a: Row, b: Row, c: Row, columns: seq<nat>)
    requires columns != [] && forall k :: 0 <= k < |columns| ==> columns[k] < |a| && columns[k] < |b| && columns[k] < |c|
    requires MayPrecede(a, b, columns) && MayPrecede(b, c, columns)
    requires a[columns[0]] == c[columns[0]]
    ensures Key(b, columns[0]) == Key(a, columns[0])
    ensures MayPrecede(a, b, columns[1..]) && MayPrecede(b, c, columns[1..])
  {
    hide Lower, AtMost;
    AtMostIsTotal(Key(a, columns[0]), Key(b, columns[0]));
  }

  /** The quantities in the parts list are those of the table. */
  ghost predicate IsPartsListExact(ls: seq<Row>)
    requires HasFourColumns(ls) && HaveColumns(ls, COLUMNS)
  {
    SortedHasFourColumns(ls);
    HaveDesignators(ls) && IsExact(CountSameParts(SortByColumns(ls, COLUMNS)), ls)
  }

  lemma FourColumns(ls: seq<Row>)
    requires HasFourColumns(ls)
    ensures HaveColumns(ls, COLUMNS) && HaveDesignators(ls)
  {
  }

  lemma SortedHasFourColumns(ls: seq<Row>)
    requires HasFourColumns(ls) && HaveColumns(ls, COLUMNS)
    ensures HasFourColumns(SortByColumns(ls, COLUMNS)) && HaveDesignators(SortByColumns(ls, COLUMNS))
    ensures multiset(SortByColumns(ls, COLUMNS)) == multiset(ls)
  {
    hide SortByColumns;
    var sorted := SortByColumns(ls, COLUMNS);
    ColumnsKeepRows(ls, COLUMNS);
    forall i | 0 <= i < |sorted|
      ensures |sorted[i]| == 4
    {
      assert sorted[i] in multiset(sorted) && sorted[i] in ls;
    }
  }

  /** The parts list of a table is exact if and only if sorting puts equal parts
      together. */
  lemma PartsListExactExactlyIf(ls: seq<Row>)
    requires HasFourColumns(ls) && HaveColumns(ls, COLUMNS)
    ensures HaveDesignators(SortByColumns(ls, COLUMNS))
    ensures IsPartsListExact(ls) <==> IsContiguous(SortByColumns(ls, COLUMNS))
  {
    hide SortByColumns, IsExact, CountSameParts, IsContiguous;
    var sorted := SortByColumns(ls, COLUMNS);
    SortedHasFourColumns(ls);
    FourColumns(ls);
    ExactExactlyIf(sorted);
    ExactForPermutation(CountSameParts(sorted), sorted, ls);
    ExactForPermutation(CountSameParts(sorted), ls, sorted);
  }

  lemma ExactForPermutation(entries: seq<Entry>, a: seq<Row>, b: seq<Row>)
    requires HaveDesignators(a) && HaveDesignators(b) && multiset(a) == multiset(b)
    ensures IsExact(entries, a) ==> IsExact(entries, b)
  {
    hide Count;
    forall i | 0 <= i < |entries| && entries[i].columns != []
      ensures Count(a, PartOf(entries[i])) == Count(b, PartOf(entries[i]))
    {
      CountOfPermutation(a, b, PartOf(entries[i]));
    }
  }

  lemma NoAmbiguousPart(ls: seq<Row>)
    requires HasNoPartVariants(ls)
    ensures IsUnambiguous(ls, COLUMNS)
  {
    hide NoVariants, SameKeys;
    assert COLUMNS[0] == 1 && COLUMNS[1] == 2 && COLUMNS[2] == 3;
  }

  /** The parts list made from a table without parts which only differ in case
      lists each part once, with its exact quantity. */
  lemma PartsListIsExact(ls: seq<Row>)
    requires HasFourColumns(ls) && HasNoPartVariants(ls)
    ensures HaveColumns(ls, COLUMNS) && IsPartsListExact(ls)
  {
    hide SortByColumns, IsOrdered, HasNoPartVariants, IsContiguous, IsPartsListExact;
    var sorted := SortByColumns(ls, COLUMNS);
    FourColumns(ls);
    SortedHasFourColumns(ls);
    NoAmbiguousPart(ls);
    OrderedByAllColumns(ls, COLUMNS);
    SortedHasNoPartVariants(ls);
    OrderedIsContiguous(sorted);
    PartsListExactExactlyIf(ls);
  }

  lemma SortedHasNoPartVariants(ls: seq<Row>)
    requires HasFourColumns(ls) && HaveColumns(ls, COLUMNS) && HasNoPartVariants(ls)
    ensures HasNoPartVariants(SortByColumns(ls, COLUMNS))
  {
    hide SortByColumns, NoVariants, AreAmong;
    var sorted := SortByColumns(ls, COLUMNS);
    SortedHasFourColumns(ls);
    PartIsAmong(sorted, ls);
    AmongNoVariants(sorted, ls, 1);
    AmongNoVariants(sorted, ls, 2);
    AmongNoVariants(sorted, ls, 3);
  }

  // When quantities are lost

  /** Two rows which agree apart from case. */
  ghost predicate AgreeIn(a: Row, b: Row, columns: seq<nat>) {
    forall k :: 0 <= k < |columns| ==> columns[k] < |a| && columns[k] < |b| && Key(a, columns[k]) == Key(b, columns[k])
  }

  /** A row between two equal ones stays there. */
  lemma {:induction false} EnclosedRowStays(a: Row, b: Row, columns: seq<nat>)
    requires AgreeIn(a, b, columns)
    ensures HaveColumns([a, b, a], columns) && SortByColumns([a, b, a], columns) == [a, b, a]
    decreases |columns|
  {
    hide Key, SortByColumns;
    var ls := [a, b, a];
    assert HaveColumns(ls, columns);
    if columns == [] {
      NothingToSortBy(ls);
    } else {
      WholeGroup(ls, columns, Key(a, columns[0]));
      assert Reversed(ls) == ls;
      EnclosedRowStays(a, b, columns[1..]);
    }
  }

  lemma NothingToSortBy(ls: seq<Row>)
    ensures HaveColumns(ls, []) && SortByColumns(ls, []) == ls
  {
  }

  /** If two parts differ only in case, the parts list of this table is wrong. */
  lemma VariantLosesQuantity(a: Row, b: Row)
    requires |a| == |b| == 4 && AgreeIn(a, b, COLUMNS) && Part(a) != Part(b)
    ensures HasFourColumns([a, b, a]) && HaveColumns([a, b, a], COLUMNS) && !IsPartsListExact([a, b, a])
  {
    hide SortByColumns, IsPartsListExact, Part, Key;
    var ls := [a, b, a];
    FourColumns(ls);
    EnclosedRowStays(a, b, COLUMNS);
    PartsListExactExactlyIf(ls);
    assert Part(ls[0]) == Part(ls[2]) && Part(ls[1]) != Part(ls[0]);
  }

  ghost predicate PermitsVariants(permitted: Permitted, c: nat) {
    exists u, v :: permitted(c, u) && permitted(c, v) && AreVariants(u, v)
  }

  lemma TableHasNoPartVariants(ls: seq<Row>, permitted: Permitted, c: nat)
    requires IsTable(ls, 4, permitted) && c < 4 && !PermitsVariants(permitted, c)
    ensures NoVariants(ls, c)
  {
    hide Lower;
    forall i, j | 0 <= i < |ls| && 0 <= j < |ls|
      ensures c < |ls[i]| && c < |ls[j]|
      ensures Key(ls[i], c) == Key(ls[j], c) ==> ls[i][c] == ls[j][c]
    {
      assert permitted(c, ls[i][c]) && permitted(c, ls[j][c]);
      assert !AreVariants(ls[i][c], ls[j][c]);
    }
  }

  ghost predicate GivesExactList(ls: seq<Row>) {
    HasFourColumns(ls) && HaveColumns(ls, COLUMNS) && IsPartsListExact(ls)
  }

  /** The parts lists of all tables over the permitted values, in which rows may
      be repeated, are exact if and only if in no column of a part there are two
      values which differ only in case. */
  lemma RepeatedRowsExactlyIf(permitted: Permitted, sample: Row)
    requires IsRow(sample, 4, permitted)
    ensures (forall ls {:trigger GivesExactList(ls)} :: IsTable(ls, 4, permitted) ==> GivesExactList(ls))
       <==> !PermitsVariants(permitted, 1) && !PermitsVariants(permitted, 2) && !PermitsVariants(permitted, 3)
  {
    hide IsPartsListExact, PermitsVariants;
    forall c | 1 <= c <= 3 && PermitsVariants(permitted, c)
      ensures exists ls :: IsTable(ls, 4, permitted) && !GivesExactList(ls)
    {
      var ls := VariantsMatter(permitted, sample, c);
    }
    if !PermitsVariants(permitted, 1) && !PermitsVariants(permitted, 2) && !PermitsVariants(permitted, 3) {
      forall ls | IsTable(ls, 4, permitted)
        ensures GivesExactList(ls)
      {
        TableHasNoPartVariants(ls, permitted, 1);
        TableHasNoPartVariants(ls, permitted, 2);
        TableHasNoPartVariants(ls, permitted, 3);
        PartsListIsExact(ls);
      }
    }
  }

  lemma VariantsMatter(permitted: Permitted, sample: Row, c: nat) returns (ls: seq<Row>)
    requires IsRow(sample, 4, permitted) && 1 <= c <= 3 && PermitsVariants(permitted, c)
    ensures IsTable(ls, 4, permitted) && !GivesExactList(ls)
  {
    hide IsPartsListExact, Lower;
    var u, v :| permitted(c, u) && permitted(c, v) && AreVariants(u, v);
    var a, b := sample[c := u], sample[c := v];
    SameParts(a, b);
    ls := [a, b, a];
    VariantLosesQuantity(a, b);
  }

  /** In a sorted list, three rows with different keys are in this order. */
  lemma ThreeAreSorted(r: seq<Row>, a: Row, b: Row, c: Row)
    requires multiset(r) == multiset([c, b, a])
    requires HaveColumn(r, 0) && IsSorted(r, 0) && a != [] && b != [] && c != []
    requires AtMost(Key(a, 0), Key(b, 0)) && AtMost(Key(b, 0), Key(c, 0))
    requires Key(a, 0) != Key(b, 0) && Key(b, 0) != Key(c, 0)
    ensures r == [a, b, c]
  {
    hide Key, AtMost;
    AtMostIsTransitive(Key(a, 0), Key(b, 0), Key(c, 0));
    AtMostIsTotal(Key(a, 0), Key(b, 0));
    AtMostIsTotal(Key(b, 0), Key(c, 0));
    AtMostIsTotal(Key(a, 0), Key(c, 0));
    assert |r| == |multiset(r)| == |multiset([c, b, a])| == 3;
    assert r == [r[0], r[1], r[2]];
    assert a in multiset(r) && b in multiset(r) && c in multiset(r);
    assert AtMost(Key(r[0], 0), Key(r[1], 0)) && AtMost(Key(r[1], 0), Key(r[2], 0)) && AtMost(Key(r[0], 0), Key(r[2], 0));
  }

  /** Each of the part columns reverses the rows. */
  lemma TripleIsReversed(a: Row, b: Row, c: Row, columns: seq<nat>)
    requires columns != [] && HaveColumns([a, b, c], columns)
    requires columns[0] < |a| && columns[0] < |b| && columns[0] < |c|
    requires a[columns[0]] == c[columns[0]] && Key(a, columns[0]) == Key(b, columns[0])
    ensures HaveColumns([c, b, a], columns[1..])
    ensures SortByColumns([a, b, c], columns) == SortByColumns([c, b, a], columns[1..])
  {
    hide SortByColumns;
    var ls := [a, b, c];
    assert Reversed(ls) == [c, b, a];
    WholeGroup(ls, columns, Key(a, columns[0]));
  }

  lemma ThreeAreReversed(a: Row, b: Row, c: Row)
    requires |a| == |b| == |c| == 4 && Part(a) == Part(c)
    requires AgreeIn(a, b, PART_COLUMNS)
    ensures HaveColumns([a, b, c], COLUMNS) && HaveColumns([c, b, a], [0])
    ensures SortByColumns([a, b, c], COLUMNS) == SortByColumns([c, b, a], [0])
  {
    hide SortByColumns, Key, HaveColumns, Part;
    SameParts(a, c);
    SameValueSameKey(a, c);
    assert COLUMNS[1..] == [2, 3, 0] && [2, 3, 0][1..] == [3, 0] && [3, 0][1..] == [0];
    assert PART_COLUMNS[0] == 1 && PART_COLUMNS[1] == 2 && PART_COLUMNS[2] == 3;
    FourColumns([a, b, c]);
    TripleIsReversed(a, b, c, COLUMNS);
    TripleIsReversed(c, b, a, [2, 3, 0]);
    TripleIsReversed(a, b, c, [3, 0]);
  }

  lemma ThreeStay(a: Row, b: Row, c: Row)
    requires |a| == |b| == |c| == 4 && Part(a) == Part(c)
    requires AgreeIn(a, b, PART_COLUMNS)
    requires AtMost(Key(a, 0), Key(b, 0)) && AtMost(Key(b, 0), Key(c, 0))
    requires Key(a, 0) != Key(b, 0) && Key(b, 0) != Key(c, 0)
    ensures HaveColumns([a, b, c], COLUMNS) && SortByColumns([a, b, c], COLUMNS) == [a, b, c]
  {
    hide SortByColumns, Key, AtMost;
    var y := [c, b, a];
    ThreeAreReversed(a, b, c);
    OrderedByFirstColumn(y, [0]);
    ColumnsKeepRows(y, [0]);
    ThreeAreSorted(SortByColumns(y, [0]), a, b, c);
  }

  lemma SameValueSameKey(a: Row, c: Row)
    requires |a| == |c| == 4 && a[1] == c[1] && a[2] == c[2] && a[3] == c[3]
    ensures Key(a, 1) == Key(c, 1) && Key(a, 2) == Key(c, 2) && Key(a, 3) == Key(c, 3)
  {
  }

  /** The same is true if all designators are different: if a part which differs
      only in case stands between two equal ones, all three are counted as the
      first one, and the other part isn't listed at all. */
  lemma VariantVanishes(a: Row, b: Row, c: Row)
    requires |a| == |b| == |c| == 4 && Part(a) == Part(c) && Part(a) != Part(b)
    requires AgreeIn(a, b, PART_COLUMNS)
    requires AtMost(Key(a, 0), Key(b, 0)) && AtMost(Key(b, 0), Key(c, 0))
    requires Key(a, 0) != Key(b, 0) && Key(b, 0) != Key(c, 0)
    ensures HasFourColumns([a, b, c]) && HaveColumns([a, b, c], COLUMNS) && !IsPartsListExact([a, b, c])
    ensures
      var sorted := SortByColumns([a, b, c], COLUMNS);
      HaveDesignators(sorted) && CountSameParts(sorted) == [Entry([a[0], b[0], c[0]], Part(a) + ["3"])]
  {
    hide SortByColumns, IsPartsListExact, Part, Key, AtMost, CountSameParts, Designators;
    var ls := [a, b, c];
    FourColumns(ls);
    ThreeStay(a, b, c);
    PartsListExactExactlyIf(ls);
    assert Part(ls[0]) == Part(ls[2]) && Part(ls[1]) != Part(ls[0]);
    CountOfThree(a, b, c);
  }

  lemma CountOfThree(a: Row, b: Row, c: Row)
    requires |a| == |b| == |c| == 4 && Part(a) == Part(c)
    ensures HaveDesignators([a, b, c])
    ensures CountSameParts([a, b, c]) == [Entry([a[0], b[0], c[0]], Part(a) + ["3"])]
  {
    hide Part;
    var ls := [a, b, c];
    assert LastOccurrence(ls, Part(a)) == 3;
    assert ls[..3] == ls && ls[3..] == [];
    assert FormatInt(3) == "3";
    assert Designators(ls) == [a[0], b[0], c[0]];
    assert CountSameParts([]) == [];
  }

  /** A concrete table for which this happens. */
  lemma PartVanishes()
    ensures
      var ls := [["R1", "a", "v", "f"], ["R2", "A", "v", "f"], ["R3", "a", "v", "f"]];
      && HasFourColumns(ls) && HaveColumns(ls, COLUMNS) && !IsPartsListExact(ls)
      && HaveDesignators(SortByColumns(ls, COLUMNS))
      && CountSameParts(SortByColumns(ls, COLUMNS)) == [Entry(["R1", "R2", "R3"], ["a", "v", "f", "3"])]
  {
    var a, b, c := ["R1", "a", "v", "f"], ["R2", "A", "v", "f"], ["R3", "a", "v", "f"];
    hide SortByColumns, IsPartsListExact, CountSameParts, Lower, AtMost, AgreeIn;
    ConcreteKeys(a, b, c);
    ConcreteParts(a, b, c);
    VariantVanishes(a, b, c);
  }

  lemma ConcreteParts(a: Row, b: Row, c: Row)
    requires a == ["R1", "a", "v", "f"] && b == ["R2", "A", "v", "f"] && c == ["R3", "a", "v", "f"]
    ensures Part(a) == Part(c) && Part(a) != Part(b) && Part(a) + ["3"] == ["a", "v", "f", "3"]
  {
    SameParts(a, b);
    SameParts(a, c);
    assert "a"[0] != "A"[0];
  }

  lemma ConcreteKeys(a: Row, b: Row, c: Row)
    requires a == ["R1", "a", "v", "f"] && b == ["R2", "A", "v", "f"] && c == ["R3", "a", "v", "f"]
    ensures AgreeIn(a, b, PART_COLUMNS)
    ensures AtMost(Key(a, 0), Key(b, 0)) && AtMost(Key(b, 0), Key(c, 0))
    ensures Key(a, 0) != Key(b, 0) && Key(b, 0) != Key(c, 0)
  {
    OneLetter('a');
    OneLetter('A');
    hide Lower;
    LowerOfTwo("R1");
    LowerOfTwo("R2");
    LowerOfTwo("R3");
    assert Key(a, 0)[1..] == "1" && Key(b, 0)[1..] == "2" && Key(c, 0)[1..] == "3";
  }

  lemma OneLetter(x: char)
    ensures Lower([x]) == [LowerChar(x)]
  {
    assert [x][1..] == "";
  }

  lemma LowerOfTwo(s: string)
    requires |s| == 2
    ensures Lower(s) == [LowerChar(s[0]), LowerChar(s[1])]
  {
    OneLetter(s[1]);
    assert s[1..] == [s[1]];
  }

  // Tables in which all designators are different

  ghost predicate HasDistinctDesignators(ls: seq<Row>) {
    forall i, j :: 0 <= i < j < |ls| ==> ls[i] != [] && ls[j] != [] && ls[i][0] != ls[j][0]
  }

  ghost predicate AreThreeDesignators(permitted: Permitted, d: string, e: string, f: string) {
    permitted(0, d) && permitted(0, e) && permitted(0, f) && d != e && e != f && d != f
  }

  ghost predicate PermitsThreeParts(permitted: Permitted) {
    exists d, e, f :: AreThreeDesignators(permitted, d, e, f)
  }

  /** Rows which are in order already stay where they are, since each of them is
      a group of its own. */
  lemma {:induction false} DistinctRowsStay(ls: seq<Row>)
    requires HaveColumn(ls, 0) && IsSorted(ls, 0) && HasDistinctDesignators(ls)
    ensures HaveColumns(ls, [0]) && SortByColumns(ls, [0]) == ls
    decreases |ls|
  {
    hide MergeSort, SortByColumns, Key, AtMost;
    assert HaveColumns(ls, [0]);
    if |ls| <= 1 {
      FewRowsStay(ls);
    } else {
      GroupsHaveColumns(ls, [0]);
      SortedRowsStay(ls, 0);
      assert FirstGroup(ls, 0) == 1;
      assert Reversed(ls[..1]) == [ls[0]];
      assert forall i :: 0 <= i < |ls[1..]| ==> ls[1..][i] == ls[i + 1];
      DistinctRowsStay(ls[1..]);
      FirstRowStays(ls);
      assert [ls[0]] + ls[1..] == ls;
    }
  }

  lemma FewRowsStay(ls: seq<Row>)
    requires |ls| <= 1 && HaveColumns(ls, [0])
    ensures SortByColumns(ls, [0]) == ls
  {
  }

  lemma FirstRowStays(ls: seq<Row>)
    requires |ls| > 1 && HaveColumns(ls, [0]) && HaveColumn(ls, 0) && HaveColumns(ls[1..], [0])
    requires Group(ls, 0) == [ls[0]] && Others(ls, 0) == ls[1..]
    ensures SortByColumns(ls, [0]) == [ls[0]] + SortByColumns(ls[1..], [0])
  {
    hide Group, Others;
    GroupsHaveColumns(ls, [0]);
  }

  /** Three designators can be put in order. */
  lemma InOrder(d: string, e: string, f: string) returns (x: string, y: string, z: string)
    ensures AtMost(Lower(x), Lower(y)) && AtMost(Lower(y), Lower(z)) && AtMost(Lower(x), Lower(z))
    ensures multiset{x, y, z} == multiset{d, e, f}
  {
    hide AtMost, Lower;
    AtMostIsTotal(Lower(d), Lower(e));
    AtMostIsTotal(Lower(e), Lower(f));
    AtMostIsTotal(Lower(d), Lower(f));
    x, y, z := d, e, f;
    if !AtMost(Lower(x), Lower(y)) {
      x, y := y, x;
    }
    if !AtMost(Lower(y), Lower(z)) {
      y, z := z, y;
      if !AtMost(Lower(x), Lower(y)) {
        x, y := y, x;
      }
    }
    AtMostIsTransitive(Lower(x), Lower(y), Lower(z));
  }

  /** A part between two others which differ from it only in case, in a table
      where all designators are different. */
  lemma EnclosedPartMatters(a: Row, b: Row, c: Row)
    requires |a| == |b| == |c| == 4 && Part(a) == Part(c) && Part(a) != Part(b)
    requires AgreeIn(a, b, PART_COLUMNS) && HasDistinctDesignators([c, b, a])
    requires AtMost(Key(c, 0), Key(b, 0)) && AtMost(Key(b, 0), Key(a, 0)) && AtMost(Key(c, 0), Key(a, 0))
    ensures !GivesExactList([a, b, c])
  {
    hide SortByColumns, IsPartsListExact, Part, Key, AtMost;
    var ls, y := [a, b, c], [c, b, a];
    FourColumns(ls);
    ThreeAreReversed(a, b, c);
    DistinctRowsStay(y);
    PartsListExactExactlyIf(ls);
    assert Part(y[0]) == Part(y[2]) && Part(y[1]) != Part(y[0]);
  }

  lemma VariantRow(permitted: Permitted, sample: Row, d: string, c: nat, u: string) returns (r: Row)
    requires IsRow(sample, 4, permitted) && 1 <= c <= 3 && permitted(0, d) && permitted(c, u)
    ensures IsRow(r, 4, permitted) && r[0] == d && r[c] == u
    ensures forall m :: 1 <= m < 4 && m != c ==> r[m] == sample[m]
  {
    r := sample[0 := d][c := u];
  }

  lemma DistinctVariantsMatter(permitted: Permitted, sample: Row, c: nat) returns (ls: seq<Row>)
    requires IsRow(sample, 4, permitted) && 1 <= c <= 3
    requires PermitsVariants(permitted, c) && PermitsThreeParts(permitted)
    ensures IsTable(ls, 4, permitted) && HasDistinctDesignators(ls) && !GivesExactList(ls)
  {
    hide GivesExactList, Lower, AtMost, Part;
    var u, v :| permitted(c, u) && permitted(c, v) && AreVariants(u, v);
    var d, e, f :| AreThreeDesignators(permitted, d, e, f);
    var x, y, z := InOrder(d, e, f);
    ThreeOfThree(permitted, d, e, f, x, y, z);
    var a := VariantRow(permitted, sample, z, c, u);
    var b := VariantRow(permitted, sample, y, c, v);
    var g := VariantRow(permitted, sample, x, c, u);
    SameParts(a, b);
    SameParts(a, g);
    ls := [a, b, g];
    EnclosedPartMatters(a, b, g);
  }

  lemma ThreeOfThree(permitted: Permitted, d: string, e: string, f: string, x: string, y: string, z: string)
    requires AreThreeDesignators(permitted, d, e, f) && multiset{x, y, z} == multiset{d, e, f}
    ensures AreThreeDesignators(permitted, x, y, z)
  {
    assert x in multiset{d, e, f} && y in multiset{d, e, f} && z in multiset{d, e, f};
    assert multiset{d, e, f}[x] == 1 && multiset{d, e, f}[y] == 1 && multiset{d, e, f}[z] == 1;
  }

  /** Two rows are always counted correctly. */
  lemma TwoRowsAreExact(ls: seq<Row>)
    requires HasFourColumns(ls) && |ls| <= 2
    ensures GivesExactList(ls)
  {
    hide SortByColumns, IsPartsListExact, Part;
    FourColumns(ls);
    SortedHasFourColumns(ls);
    var sorted := SortByColumns(ls, COLUMNS);
    assert |sorted| == |multiset(sorted)| == |multiset(ls)| == |ls|;
    PartsListExactExactlyIf(ls);
  }

  lemma FewDesignators(ls: seq<Row>, permitted: Permitted)
    requires IsTable(ls, 4, permitted) && HasDistinctDesignators(ls) && !PermitsThreeParts(permitted)
    ensures |ls| <= 2
  {
    if |ls| > 2 {
      assert IsRow(ls[0], 4, permitted) && IsRow(ls[1], 4, permitted) && IsRow(ls[2], 4, permitted);
      assert AreThreeDesignators(permitted, ls[0][0], ls[1][0], ls[2][0]);
    }
  }

  /** The parts lists of all tables over the permitted values in which no
      designator occurs twice are exact if and only if in no column of a part
      there are two values which differ only in case, or there can't be three
      rows. */
  lemma QuantitiesExactlyIf(permitted: Permitted, sample: Row)
    requires IsRow(sample, 4, permitted)
    ensures (forall ls {:trigger GivesExactList(ls)} ::
               IsTable(ls, 4, permitted) && HasDistinctDesignators(ls) ==> GivesExactList(ls))
       <==> !PermitsThreeParts(permitted) ||
            (!PermitsVariants(permitted, 1) && !PermitsVariants(permitted, 2) && !PermitsVariants(permitted, 3))
  {
    hide GivesExactList, PermitsVariants, PermitsThreeParts, HasDistinctDesignators;
    if !PermitsThreeParts(permitted) {
      forall ls | IsTable(ls, 4, permitted) && HasDistinctDesignators(ls)
        ensures GivesExactList(ls)
      {
        FewDesignators(ls, permitted);
        TwoRowsAreExact(ls);
      }
    } else {
      RepeatedRowsExactlyIf(permitted, sample);
      forall c | 1 <= c <= 3 && PermitsVariants(permitted, c)
        ensures exists ls :: IsTable(ls, 4, permitted) && HasDistinctDesignators(ls) && !GivesExactList(ls)
      {
        var ls := DistinctVariantsMatter(permitted, sample, c);
      }
    }
  }
}
