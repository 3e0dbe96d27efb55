/** Which objects have been added, removed or modified between two revisions. */
module Differences {
  import opened ObjectData
  import opened Forest
  import opened Storage
  import opened Wrappers
  import opened Cursors
  import opened Sequences
  import opened Manipulate
  import opened Objects

  ghost function Added(from: Tree, to: Tree): set<Id> {
    to.states.Keys - from.states.Keys
  }

  ghost function Removed(from: Tree, to: Tree): set<Id> {
    from.states.Keys - to.states.Keys
  }

  /** The objects whose states aren't identical. */
  ghost function Modified(from: Tree, to: Tree): set<Id> {
    set k | k in from.states && k in to.states && from.states[k] != to.states[k]
  }

  /** If no object has been added, removed or modified, all objects are there
      with the same data. */
  lemma NoDifference(from: Tree, to: Tree)
    ensures Added(from, to) == {} && Removed(from, to) == {} && Modified(from, to) == {} <==>
      from.states == to.states
  {
    if Added(from, to) == {} && Removed(from, to) == {} && Modified(from, to) == {} {
      forall k
        ensures k in from.states <==> k in to.states
        ensures k in from.states ==> from.states[k] == to.states[k]
      {
        assert k !in Added(from, to) && k !in Removed(from, to) && k !in Modified(from, to);
      }
    }
  }

  /** The objects which have different type or data. */
  ghost function Changed(from: Tree, to: Tree): set<Id> {
    set k | k in from.states && k in to.states && from.states[k].data != to.states[k].data
  }

  /** Objects whose data differ are always reported as modified.  States are
      compared by identity, so exactly these are reported if and only if no object
      has distinct states with the same data. */
  lemma ModifiedIsChangedExactlyIf(from: Tree, to: Tree)
    ensures Changed(from, to) <= Modified(from, to)
    ensures Modified(from, to) == Changed(from, to) <==>
      forall k :: k in from.states && k in to.states && from.states[k].data == to.states[k].data ==>
        from.states[k] == to.states[k]
  {
    forall k | k in from.states && k in to.states && from.states[k].data == to.states[k].data
      ensures k !in Changed(from, to) && (k in Modified(from, to) <==> from.states[k] != to.states[k])
    {
    }
  }

  lemma DifferentDataIsModified(from: Tree, to: Tree, k: Id)
    requires k in from.states && k in to.states
    requires from.states[k].data != to.states[k].data
    ensures k in Modified(from, to)
  {
  }

  /** Setting an object to another state makes it the only modified object. */
  lemma SettingIsModification(t: Tree, ob: Id, s: ObState)
    requires IsForest(t) && ob in t.states
    ensures Modified(t, Set(t, ob, s)) == if s == t.states[ob] then {} else {ob}
    ensures Added(t, Set(t, ob, s)) == {} && Removed(t, Set(t, ob, s)) == {}
  {
    assert Set(t, ob, s).states == t.states[ob := s];
  }

  /** Set some objects to other states, one after another. */
  ghost function SetInTurn(t: Tree, sets: seq<(Id, ObState)>): Tree {
    if sets == [] then t
    else
      var n := |sets| - 1;
      Set(SetInTurn(t, sets[..n]), sets[n].0, sets[n].1)
  }

  /** The state to which an object has been set last. */
  ghost function LastSet(sets: seq<(Id, ObState)>, ob: Id): Option<ObState> {
    if sets == [] then None
    else
      var n := |sets| - 1;
      if sets[n].0 == ob then Some(sets[n].1) else LastSet(sets[..n], ob)
  }

  lemma {:induction false} StatesAfterSets(t: Tree, sets: seq<(Id, ObState)>)
    requires t.states.Keys == t.parent.Keys
    ensures SetInTurn(t, sets).states.Keys == SetInTurn(t, sets).parent.Keys
    ensures forall ob :: ob in t.states ==> IsLastState(t, sets, SetInTurn(t, sets), ob)
  {
    if sets != [] {
      var n := |sets| - 1;
      var u := SetInTurn(t, sets[..n]);
      StatesAfterSets(t, sets[..n]);
      forall ob | ob in t.states
        ensures IsLastState(t, sets, SetInTurn(t, sets), ob)
      {
        assert IsLastState(t, sets[..n], u, ob);
      }
    }
  }

  ghost predicate IsLastState(t: Tree, sets: seq<(Id, ObState)>, u: Tree, ob: Id)
    requires ob in t.states
  {
    && ob in u.states
    && u.states[ob] == if LastSet(sets, ob).Some? then LastSet(sets, ob).value else t.states[ob]
  }

  lemma {:induction false} LastSetOccurs(sets: seq<(Id, ObState)>, ob: Id)
    ensures LastSet(sets, ob).Some? ==> (ob, LastSet(sets, ob).value) in sets
  {
    if sets != [] {
      LastSetOccurs(sets[..|sets| - 1], ob);
    }
  }

  /** Setting objects to new states reports all of these which existed before.
      This is right if and only if each of them has got other data in the end. */
  lemma SetsAreReported(t: Tree, sets: seq<(Id, ObState)>)
    requires IsForest(t)
    requires forall i, ob :: 0 <= i < |sets| && ob in t.states ==> sets[i].1 != t.states[ob]
    ensures Modified(t, SetInTurn(t, sets)) == set ob | ob in t.states && LastSet(sets, ob).Some?
    ensures Modified(t, SetInTurn(t, sets)) == Changed(t, SetInTurn(t, sets)) <==>
      forall ob :: ob in t.states && LastSet(sets, ob).Some? ==> LastSet(sets, ob).value.data != t.states[ob].data
  {
    hide IsForest;
    KeysOfForest(t);
    StatesAfterSets(t, sets);
    var u := SetInTurn(t, sets);
    hide SetInTurn, LastSet;
    forall ob | ob in t.states
      ensures ob in u.states && (u.states[ob] != t.states[ob] <==> LastSet(sets, ob).Some?)
      ensures LastSet(sets, ob).Some? ==> u.states[ob] == LastSet(sets, ob).value
    {
      LastSetOccurs(sets, ob);
      assert IsLastState(t, sets, u, ob);
    }
    ModifiedIsChangedExactlyIf(t, u);
    assert forall ob :: ob in t.states ==> (ob in Modified(t, u) <==> LastSet(sets, ob).Some?);
  }

  lemma KeysOfForest(t: Tree)
    requires IsForest(t)
    ensures t.states.Keys == t.parent.Keys
  {
  }

  /** An object which has been set to the data it already had is reported,
      although it hasn't changed. */
  lemma SameDataIsModified(t: Tree, ob: Id, s: ObState)
    requires IsForest(t) && ob in t.states && s != t.states[ob] && s.data == t.states[ob].data
    ensures Modified(t, Set(t, ob, s)) == {ob} && Changed(t, Set(t, ob, s)) == {}
  {
    SettingIsModification(t, ob, s);
    assert Set(t, ob, s).states == t.states[ob := s];
  }

  lemma SingleIsForest(s: ObState)
    ensures IsForest(Put(EMPTY, 1, s, NULL))
    ensures Put(EMPTY, 1, s, NULL) == Tree(map[1 := s], map[NULL := [1]], map[1 := NULL])
  {
    assert Kids(EMPTY, NULL) + [1] == [1];
    assert map[][1 := s] == map[1 := s];
    EmptyIsForest();
    PutKeepsForest(EMPTY, 1, s, NULL);
  }

  /** Such a revision, with a single object. */
  method RewriteObject(data: Data<nat, nat>)
    returns (from: Revision, to: Revision, objects: Option<array<Id>>, count: nat)
    ensures IsForest(from.View()) && from.obstates.Keys == {1} && 1 in to.obstates
    ensures to.View() == Set(from.View(), 1, to.obstates[1])
    ensures Changed(from.View(), to.View()) == {} && Modified(from.View(), to.View()) == {1}
    ensures objects.Some? ==> count <= objects.value.Length && objects.value[..count] == [1]
  {
    var s := new ObState(data, null, 1);
    var u := new ObState(data, null, 1);
    from := new Revision(map[1 := s], map[NULL := [1]], map[1 := NULL]);
    to := new Revision(map[1 := u], map[NULL := [1]], map[1 := NULL]);
    SingleIsForest(s);
    hide IsForest, Normalize;
    assert map[1 := s][1 := u] == map[1 := u];
    SameDataIsModified(from.View(), 1, u);
    objects, count := GetModifiedObjects(from, to);
    AscendingAppend({}, 1);
    assert {} + {1} == {1};
  }

  /** Setting an object to the data it already has, in any revision. */
  method SetAgain(lib: Library, rev: Revision, ob: Id) returns (r: Result<()>)
    requires lib.Valid() && rev in lib.live && ob in rev.obstates
    modifies lib`states, lib`held, lib.states, rev
    ensures lib.Valid() && lib.OthersUntouched(rev)
    ensures r.Err? ==> r.error == if old(rev.isTransient) then OutOfMemory else RevisionNotTransient
    ensures r.Ok? ==>
      && Changed(old(rev.View()), rev.View()) == {}
      && Modified(old(rev.View()), rev.View()) == {ob}
  {
    lib.StatesAreAllocated(rev);
    assert lib.IsWellFormed(rev);
    ghost var t, data := rev.View(), rev.obstates[ob].data;
    assert t.states[ob] in lib.states;
    SameDataIsPermitted(t, ob, rev.isTransient);
    hide Library.Valid, IsForest, SetError, Normalize, DataIsValid;
    r := SetObjectData(lib, rev, ob, Some(rev.obstates[ob].data));
    if r.Ok? {
      SameDataIsModified(t, ob, rev.obstates[ob]);
    }
  }

  lemma SameDataIsPermitted(t: Tree, ob: Id, isTransient: bool)
    requires IsForest(t) && ob in t.states && Storable(t.states[ob].data)
    ensures SetError(t, isTransient, ob, Some(t.states[ob].data)) == if isTransient then None else Some(RevisionNotTransient)
    ensures Normalize(t.states[ob].data) == t.states[ob].data && NULL < ob
  {
    assert EntryIsValid(t, ob);
    if !CanHaveChildren(t.states[ob].data) {
      LeafIfNotHolder(t, ob);
    }
  }


  lemma {:induction false} AscendingSize(s: set<Id>)
    ensures |Ascending(s)| == |s|
  {
    if s != {} {
      AscendingSize(s - {Begin(s).value});
    }
  }

  lemma FewerThan(a: set<Id>, b: set<Id>)
    requires a <= b
    ensures |a| <= |b|
  {
    assert b == a + (b - a);
  }

  /** The list of modified objects always fits into its buffer. */
  lemma ModifiedFit(from: Tree, to: Tree, some: set<Id>)
    requires some <= Modified(from, to)
    ensures |Ascending(some)| <= |from.states| && |Ascending(some)| <= |to.states|
  {
    AscendingSize(some);
    FewerThan(some, from.states.Keys);
    FewerThan(some, to.states.Keys);
  }

  /** The modified objects among those which have been passed. */
  ghost function ModifiedSoFar(from: Tree, to: Tree, i: Cursor): set<Id> {
    set k | k in Modified(from, to) && Passed(i, k)
  }

  lemma ModifiedBegins(from: Tree, to: Tree)
    ensures ModifiedSoFar(from, to, Begin(from.states.Keys)) == {}
  {
  }

  lemma ModifiedSkipsKey(from: Tree, to: Tree, i: Cursor, j: Cursor)
    requires InStep(from.states.Keys, to.states.Keys, i, j) && i.Some? && j.Some? && i.value < j.value
    ensures ModifiedSoFar(from, to, Next(from.states.Keys, i.value)) == ModifiedSoFar(from, to, i)
  {
  }

  lemma ModifiedMeets(from: Tree, to: Tree, i: Cursor, j: Cursor)
    requires InStep(from.states.Keys, to.states.Keys, i, j) && i.Some? && j.Some? && i.value == j.value
    ensures
      var done := ModifiedSoFar(from, to, i);
      ModifiedSoFar(from, to, Next(from.states.Keys, i.value)) ==
        if from.states[i.value] != to.states[i.value] then done + {i.value} else done
  {
  }

  lemma ModifiedAppends(from: Tree, to: Tree, i: Cursor)
    requires i.Some? && i.value in Modified(from, to)
    ensures
      var done := ModifiedSoFar(from, to, i);
      && Ascending(done + {i.value}) == Ascending(done) + [i.value]
      && |Ascending(done + {i.value})| <= |from.states|
      && |Ascending(done + {i.value})| <= |to.states|
  {
    var done := ModifiedSoFar(from, to, i);
    ModifiedFit(from, to, done + {i.value});
    AscendingAppend(done, i.value);
  }

  lemma ModifiedEnds(from: Tree, to: Tree, i: Cursor, j: Cursor)
    requires InStep(from.states.Keys, to.states.Keys, i, j) && (i.None? || j.None?)
    ensures ModifiedSoFar(from, to, i) == Modified(from, to)
  {
  }

  /** A list of the objects which are in two revisions but differ.  There may
      only be too little memory if neither revision is empty. */
  method GetModifiedObjects(from: Revision, to: Revision) returns (objects: Option<array<Id>>, count: nat)
    ensures from.obstates == map[] || to.obstates == map[] ==> objects.Some?
    ensures objects.None? ==> count == 0
    ensures objects.Some? ==>
      && fresh(objects.value) && count <= objects.value.Length
      && objects.value[..count] == Ascending(Modified(from.View(), to.View()))
  {
    count := 0;
    var outOfMemory := *;
    var a, b := from.obstates, to.obstates;
    if outOfMemory && a != map[] && b != map[] {
      return None, count;
    }
    ghost var t, u := from.View(), to.View();
    var buffer := new Id[if |a| < |b| then |a| else |b|];
    var i, j := Begin(a.Keys), Begin(b.Keys);
    MergeBegins(a.Keys, b.Keys);
    ModifiedBegins(t, u);
    while i.Some? && j.Some?
      invariant InStep(a.Keys, b.Keys, i, j)
      invariant count <= buffer.Length && buffer[..count] == Ascending(ModifiedSoFar(t, u, i))
      decreases Ahead(a.Keys, i), Ahead(b.Keys, j)
    {
      hide ModifiedSoFar, Ascending, Ahead;
      if i.value < j.value {
        MergeSkipsKey(a.Keys, b.Keys, i, j);
        ModifiedSkipsKey(t, u, i, j);
        NextIsAhead(a.Keys, i.value);
        i := Next(a.Keys, i.value);
      } else if i.value > j.value {
        MergeSkipsSelected(a.Keys, b.Keys, i, j);
        NextIsAhead(b.Keys, j.value);
        j := Next(b.Keys, j.value);
      } else {
        MergeMeets(a.Keys, b.Keys, i, j);
        ModifiedMeets(t, u, i, j);
        if a[i.value] != b[j.value] {
          ModifiedAppends(t, u, i);
          count := Write(buffer, count, i.value);
        }
        NextIsAhead(a.Keys, i.value);
        i, j := Next(a.Keys, i.value), Next(b.Keys, j.value);
      }
    }
    ModifiedEnds(t, u, i, j);
    return Some(buffer), count;
  }
}
