/** Iterating over the keys of an ordered container.  An iterator is the key
    it points to, or None for the past-the-end iterator, so it stays valid
    when keys are inserted. */
module Cursors {
  import opened Forest
  import opened Storage
  import opened Wrappers

  type Cursor = Option<Id>

  lemma {:induction false} LeastExists(s: set<Id>)
    requires s != {}
    ensures exists m :: m in s && forall x :: x in s ==> m <= x
  {
    var k :| k in s;
    var rest := s - {k};
    if rest == {} {
      assert s == {k};
      assert forall x :: x in s ==> k <= x;
    } else {
      LeastExists(rest);
      var m :| m in rest && forall x :: x in rest ==> m <= x;
      var l := if m < k then m else k;
      assert l in s && forall x :: x in s ==> x == k || x in rest;
      assert forall x :: x in s ==> l <= x;
    }
  }

  /** The iterator to the first key. */
  function Begin(s: set<Id>): (c: Cursor)
    ensures c.None? <==> s == {}
    ensures c.Some? ==> c.value in s && forall x :: x in s ==> c.value <= x
  {
    if s == {} then None
    else
      LeastExists(s);
      var m :| m in s && forall x :: x in s ==> m <= x;
      Some(m)
  }

  /** The iterator to the key after k. */
  function Next(s: set<Id>, k: Id): (c: Cursor)
    ensures c.None? ==> forall x :: x in s ==> x <= k
    ensures c.Some? ==> c.value in s && c.value > k && forall x :: x in s && x > k ==> c.value <= x
  {
    var later := set x | x in s && x > k;
    assert forall x :: x in s && x > k <==> x in later;
    Begin(later)
  }

  /** Whether an iterator has passed a key. */
  predicate Passed(c: Cursor, k: Id) {
    c.None? || k < c.value
  }

  /** The keys which an iterator hasn't passed yet. */
  ghost function Ahead(s: set<Id>, c: Cursor): set<Id> {
    set x | x in s && !Passed(c, x)
  }

  lemma NextIsAhead(s: set<Id>, k: Id)
    requires k in s
    ensures Ahead(s, Next(s, k)) == Ahead(s, Some(k)) - {k}
    ensures k in Ahead(s, Some(k))
  {
  }

  // Merging two ordered containers: advance the iterator with the smaller
  // key, or both iterators if the keys are equal.

  /** Both iterators have passed the same common keys. */
  ghost predicate InStep(keys: set<Id>, sel: set<Id>, i: Cursor, j: Cursor) {
    && (i.Some? ==> i.value in keys)
    && (j.Some? ==> j.value in sel)
    && forall x :: x in keys && x in sel ==> (Passed(i, x) <==> Passed(j, x))
  }

  /** The common keys which have been passed. */
  ghost function Common(keys: set<Id>, sel: set<Id>, i: Cursor): set<Id> {
    set x | x in keys && x in sel && Passed(i, x)
  }

  lemma MergeBegins(keys: set<Id>, sel: set<Id>)
    ensures InStep(keys, sel, Begin(keys), Begin(sel))
    ensures Common(keys, sel, Begin(keys)) == {}
  {
  }

  lemma MergeSkipsKey(keys: set<Id>, sel: set<Id>, i: Cursor, j: Cursor)
    requires InStep(keys, sel, i, j) && i.Some? && j.Some? && i.value < j.value
    ensures InStep(keys, sel, Next(keys, i.value), j)
    ensures Common(keys, sel, Next(keys, i.value)) == Common(keys, sel, i)
  {
  }

  lemma MergeSkipsSelected(keys: set<Id>, sel: set<Id>, i: Cursor, j: Cursor)
    requires InStep(keys, sel, i, j) && i.Some? && j.Some? && i.value > j.value
    ensures InStep(keys, sel, i, Next(sel, j.value))
  {
  }

  lemma MergeMeets(keys: set<Id>, sel: set<Id>, i: Cursor, j: Cursor)
    requires InStep(keys, sel, i, j) && i.Some? && j.Some? && i.value == j.value
    ensures InStep(keys, sel, Next(keys, i.value), Next(sel, j.value))
    ensures Common(keys, sel, Next(keys, i.value)) == Common(keys, sel, i) + {i.value}
    ensures forall x :: x in Common(keys, sel, i) ==> x < i.value
  {
  }

  lemma MergeEnds(keys: set<Id>, sel: set<Id>, i: Cursor, j: Cursor)
    requires InStep(keys, sel, i, j) && (i.None? || j.None?)
    ensures Common(keys, sel, i) == keys * sel
  {
  }

  /** The keys in ascending order. */
  ghost function Ascending(s: set<Id>): (keys: seq<Id>)
    ensures forall k :: k in keys <==> k in s
    ensures forall i, j :: 0 <= i < j < |keys| ==> keys[i] < keys[j]
  {
    if s == {} then []
    else
      var m := Begin(s).value;
      [m] + Ascending(s - {m})
  }

  /** A key larger than all others comes last. */
  lemma {:induction false} AscendingAppend(s: set<Id>, k: Id)
    requires forall x :: x in s ==> x < k
    ensures Ascending(s + {k}) == Ascending(s) + [k]
  {
    if s == {} {
      assert s + {k} - {k} == {};
      assert Ascending({k} - {k}) == [];
    } else {
      var m := Begin(s).value;
      assert Begin(s + {k}).value == m;
      assert s + {k} - {m} == s - {m} + {k};
      AscendingAppend(s - {m}, k);
    }
  }
}
