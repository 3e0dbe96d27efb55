/** Deleting objects together with the objects attached to them. */
module Deleting {
  import opened ObjectData
  import opened Forest
  import opened Storage
  import opened Wrappers
  import opened Cursors

  /** What deleting an object relies on: it and its children exist, and the
      children don't have children themselves. */
  ghost predicate IsFamily(t: Tree, ob: Id) {
    && ob in t.states && ob in t.parent
    && NoDuplicates(Kids(t, ob))
    && forall c {:trigger IsLeaf(t, c)} :: c in Kids(t, ob) ==> IsLeaf(t, c) && c != ob
  }

  ghost predicate IsLeaf(t: Tree, c: Id) {
    c in t.states && c in t.parent && Kids(t, c) == []
  }

  /** Remove an object and, recursively, the objects attached to it, but leave
      the entry in its parent's list. */
  method DeleteObjectButLeaveEntry(lib: Library, rev: Revision, ob: Id, ghost depth: nat)
    returns (ghost gone: set<Id>)
    requires lib.Accounted() && rev in lib.live
    requires depth == 0 ==> Kids(rev.View(), ob) == []
    requires IsFamily(rev.View(), ob)
    modifies lib`states, lib`held, lib.states, rev`obstates, rev`children, rev`parent
    ensures lib.Accounted() && lib.states <= old(lib.states)
    ensures gone == Family(old(rev.View()), ob)
    ensures rev.obstates == old(rev.obstates) - gone
    ensures rev.children == old(rev.children) - gone
    ensures rev.parent == old(rev.parent) - gone
    decreases depth, 2
  {
    gone := Family(rev.View(), ob);
    ghost var t := rev.View();
    RemoveObject(lib, rev, ob);
    if ob in rev.children {
      DeleteChildren(lib, rev, t, ob, depth);
    } else {
      assert gone == {ob};
    }
  }

  /** Delete the objects attached to an object which has been removed, and
      forget the list of these objects. */
  method DeleteChildren(lib: Library, rev: Revision, ghost t: Tree, ob: Id, ghost depth: nat)
    requires lib.Accounted() && rev in lib.live
    requires IsFamily(t, ob) && ob in t.children
    requires depth == 0 ==> Kids(t, ob) == []
    requires Remains(rev, t, ob, {})
    modifies lib`states, lib`held, lib.states, rev`obstates, rev`children, rev`parent
    ensures lib.Accounted() && lib.states <= old(lib.states)
    ensures rev.obstates == t.states - Family(t, ob)
    ensures rev.children == t.children - Family(t, ob)
    ensures rev.parent == t.parent - Family(t, ob)
    decreases depth, 1
  {
    var children := rev.children[ob];
    assert children == Kids(t, ob);
    var k := 0;
    ghost var gone: set<Id> := {};
    while k < |children|
      invariant k <= |children|
      invariant lib.Accounted() && lib.states <= old(lib.states)
      invariant IsPrefix(gone, children, k)
      invariant Remains(rev, t, ob, gone)
    {
      var c := children[k];
      assert IsLeaf(t, c);
      NextInPrefix(gone, children, k);
      DeleteChild(lib, rev, t, ob, c, gone);
      gone := gone + {c};
      k := k + 1;
    }
    assert Family(t, ob) == {ob} + gone;
    SubtractTwice(t.children, gone, {ob});
    ForgetList(lib, rev, ob);
  }

  /** Whether a set consists of the first k elements of a list. */
  ghost predicate IsPrefix(some: set<Id>, s: seq<Id>, k: nat) {
    && (forall i :: 0 <= i < |s| ==> (s[i] in some <==> i < k))
    && (forall c :: c in some ==> c in s)
  }

  lemma NextInPrefix(some: set<Id>, s: seq<Id>, k: nat)
    requires NoDuplicates(s) && k < |s| && IsPrefix(some, s, k)
    ensures s[k] !in some && IsPrefix(some + {s[k]}, s, k + 1)
  {
  }

  method ForgetList(lib: Library, rev: Revision, ob: Id)
    requires lib.Accounted()
    modifies rev`children
    ensures lib.Accounted()
    ensures rev.children == old(rev.children) - {ob}
  {
    rev.children := rev.children - {ob};
  }

  lemma SubtractTwice<V>(m: map<Id, V>, a: set<Id>, b: set<Id>)
    ensures m - a - b == m - (a + b)
  {
  }

  /** What is left of a structure without an object and some of its children,
      except that the object's own list is still there. */
  ghost predicate Remains(rev: Revision, t: Tree, ob: Id, gone: set<Id>)
    reads rev`obstates, rev`children, rev`parent
  {
    && rev.obstates == t.states - ({ob} + gone)
    && rev.children == t.children - gone
    && rev.parent == t.parent - ({ob} + gone)
  }

  method DeleteChild(lib: Library, rev: Revision, ghost t: Tree, ghost ob: Id, c: Id, ghost gone: set<Id>)
    requires lib.Accounted() && rev in lib.live
    requires Remains(rev, t, ob, gone)
    requires IsLeaf(t, c) && c != ob && c !in gone
    modifies lib`states, lib`held, lib.states, rev`obstates, rev`children, rev`parent
    ensures lib.Accounted() && lib.states <= old(lib.states)
    ensures Remains(rev, t, ob, gone + {c})
    decreases 0, 3
  {
    ghost var family := DeleteObjectButLeaveEntry(lib, rev, c, 0);
    assert family == {c};
    SubtractTwice(t.states, {ob} + gone, {c});
    SubtractTwice(t.children, gone, {c});
    SubtractTwice(t.parent, {ob} + gone, {c});
    assert {ob} + (gone + {c}) == {ob} + gone + {c};
  }

  /** Release the state of an object and forget the object itself. */
  method RemoveObject(lib: Library, rev: Revision, ob: Id)
    requires lib.Accounted() && rev in lib.live
    requires ob in rev.obstates && ob in rev.parent
    modifies lib`states, lib`held, lib.states, rev`obstates, rev`parent
    ensures lib.Accounted() && lib.states <= old(lib.states)
    ensures rev.obstates == old(rev.obstates) - {ob}
    ensures rev.parent == old(rev.parent) - {ob}
  {
    RemoveState(lib, rev, ob);
    rev.parent := rev.parent - {ob};
  }

  method RemoveState(lib: Library, rev: Revision, ob: Id)
    requires lib.Accounted() && rev in lib.live && ob in rev.obstates
    modifies lib`states, lib`held, lib.states, rev`obstates
    ensures lib.Accounted() && lib.states <= old(lib.states)
    ensures rev.obstates == old(rev.obstates) - {ob}
  {
    assert (rev, ob) in lib.held;
    lib.DecRefcnt(rev.obstates[ob], (rev, ob));
    rev.obstates := rev.obstates - {ob};
    lib.StaysSettledWithout(rev, ob);
  }

  /** Delete an object from a transient revision. */
  method DeleteObject(lib: Library, rev: Revision, ob: Id) returns (r: Result<()>)
    requires lib.Valid() && rev in lib.live
    modifies lib`states, lib`held, lib.states, rev
    ensures lib.Valid() && lib.OthersUntouched(rev)
    ensures lib.states <= old(lib.states)
    ensures r == if !rev.isTransient then Err(RevisionNotTransient)
                 else if ob !in old(rev.obstates) then Err(ObjectDoesntExist)
                 else Ok(())
    ensures r.Err? ==> rev.View() == old(rev.View())
    ensures r.Ok? ==> ob in old(rev.parent) && rev.View() == Delete(old(rev.View()), ob)
  {
    if !rev.isTransient {
      return Err(RevisionNotTransient);
    }
    assert old(lib.IsWellFormed(rev));
    if ob !in rev.parent {
      return Err(ObjectDoesntExist);
    }
    DeleteExisting(lib, rev, ob);
    DeleteKeepsForest(old(rev.View()), ob);
    lib.StaysValid(rev);
    return Ok(());
  }

  method DeleteExisting(lib: Library, rev: Revision, ob: Id)
    requires lib.Accounted() && rev in lib.live
    requires IsForest(rev.View()) && ob in rev.parent
    modifies lib`states, lib`held, lib.states, rev`obstates, rev`children, rev`parent
    ensures lib.Accounted() && lib.states <= old(lib.states)
    ensures rev.View() == Delete(old(rev.View()), ob)
  {
    ghost var t := rev.View();
    var parent := rev.parent[ob];
    ForestHasFamilies(t, ob);
    ghost var gone := DeleteObjectButLeaveEntry(lib, rev, ob, 1);
    var children := rev.children[parent];
    var i := IndexOf(children, ob);
    WithoutAt(children, i);
    rev.children := rev.children[parent := children[..i] + children[i + 1..]];
  }

  lemma ForestHasFamilies(t: Tree, ob: Id)
    requires IsForest(t) && ob in t.parent
    ensures IsFamily(t, ob)
    ensures var p := t.parent[ob];
      p in t.children && p !in Family(t, ob) && ob in t.children[p] && NoDuplicates(t.children[p])
  {
    assert EntryIsValid(t, ob);
    assert ListIsValid(t, t.parent[ob]);
    KidsAreChildren(t, ob);
    ParentIsOutside(t, ob);
    if ob in Kids(t, ob) {
      DepthTwo(t, ob);
    }
  }

  // Deleting many objects

  function WithoutAll(s: seq<Id>, obs: set<Id>): seq<Id> {
    if s == [] then []
    else if s[0] in obs then WithoutAll(s[1..], obs)
    else [s[0]] + WithoutAll(s[1..], obs)
  }

  lemma {:induction false} WithoutOneMore(s: seq<Id>, obs: set<Id>, ob: Id)
    ensures WithoutAll(s, obs + {ob}) == Without(WithoutAll(s, obs), ob)
  {
    if s != [] {
      WithoutOneMore(s[1..], obs, ob);
      var rest := WithoutAll(s[1..], obs);
      assert ([s[0]] + rest)[1..] == rest;
    }
  }

  lemma {:induction false} WithoutNone(s: seq<Id>, obs: set<Id>)
    requires forall k :: k in s ==> k !in obs
    ensures WithoutAll(s, obs) == s
  {
    if s != [] {
      assert s == [s[0]] + s[1..];
      WithoutNone(s[1..], obs);
    }
  }

  /** The objects which go away when certain objects are deleted: those and
      the ones attached to them. */
  ghost function Doomed(t: Tree, obs: set<Id>): set<Id> {
    set k | k in t.parent && (k in obs || (t.parent[k] != NULL && t.parent[k] in obs))
  }

  /** Whether u is what remains of t if certain objects are deleted. */
  ghost predicate IsPruned(t: Tree, obs: set<Id>, u: Tree) {
    && u.states == t.states - Doomed(t, obs)
    && u.parent == t.parent - Doomed(t, obs)
    && forall p {:trigger Kids(u, p)} :: Kids(u, p) ==
         if p in Doomed(t, obs) then [] else WithoutAll(Kids(t, p), obs)
  }

  lemma PruneNothing(t: Tree, u: Tree)
    requires IsForest(t) && u == t
    ensures IsPruned(t, {}, u)
  {
    forall p
      ensures WithoutAll(Kids(t, p), {}) == Kids(t, p)
    {
      WithoutNone(Kids(t, p), {});
    }
  }

  /** Deleting one more object; it may already be gone. */
  lemma PruneOneMore(t: Tree, obs: set<Id>, u: Tree, ob: Id, v: Tree)
    requires IsForest(t) && IsPruned(t, obs, u) && IsForest(u)
    requires v == if ob in u.parent then Delete(u, ob) else u
    ensures IsPruned(t, obs + {ob}, v)
  {
    forall p
      ensures Kids(v, p) ==
        if p in Doomed(t, obs + {ob}) then [] else WithoutAll(Kids(t, p), obs + {ob})
    {
      PrunedKids(t, obs, u, ob, v, p);
    }
    forall k | k in t.states
      ensures k in v.states <==> k !in Doomed(t, obs + {ob})
    {
      PrunedMembers(t, obs, u, ob, v, k);
    }
  }

  lemma PrunedMembers(t: Tree, obs: set<Id>, u: Tree, ob: Id, v: Tree, k: Id)
    requires IsForest(t) && IsPruned(t, obs, u) && IsForest(u)
    requires v == if ob in u.parent then Delete(u, ob) else u
    requires k in t.states
    ensures k in v.states <==> k !in Doomed(t, obs + {ob})
  {
    KidsAreChildren(u, ob);
    if t.parent[k] != NULL {
      DepthTwo(t, k);
    }
  }

  lemma PrunedKids(t: Tree, obs: set<Id>, u: Tree, ob: Id, v: Tree, p: Id)
    requires IsForest(t) && IsPruned(t, obs, u) && IsForest(u)
    requires v == if ob in u.parent then Delete(u, ob) else u
    ensures Kids(v, p) ==
      if p in Doomed(t, obs + {ob}) then [] else WithoutAll(Kids(t, p), obs + {ob})
  {
    WithoutOneMore(Kids(t, p), obs, ob);
    assert ListIsValid(u, p);
    if ob in u.parent {
      DeleteKeepsList(u, ob, p);
      KidsAreChildren(u, ob);
    } else {
      WithoutAbsent(Kids(u, p), ob);
    }
    if p in t.parent && t.parent[p] != NULL {
      DepthTwo(t, p);
    }
  }

  /** Delete some objects from a transient revision. */
  method DeleteSelectedObjects(lib: Library, rev: Revision, sel: set<Id>) returns (r: Result<()>)
    requires lib.Valid() && rev in lib.live
    modifies lib`states, lib`held, lib.states, rev
    ensures forall s :: s in lib.states ==> s in old(lib.states) || fresh(s)
    ensures lib.Valid() && lib.OthersUntouched(rev)
    ensures r == if rev.isTransient then Ok(()) else Err(RevisionNotTransient)
    ensures r.Err? ==> rev.View() == old(rev.View())
    ensures r.Ok? ==> IsPruned(old(rev.View()), sel, rev.View())
  {
    if !rev.isTransient {
      return Err(RevisionNotTransient);
    }
    var i := Begin(sel);
    ghost var done: set<Id> := {};
    assert lib.IsWellFormed(rev);
    PruneNothing(rev.View(), rev.View());
    while i.Some?
      invariant lib.Valid() && lib.OthersUntouched(rev)
      invariant lib.states <= old(lib.states)
      invariant i.Some? ==> i.value in sel
      invariant done == sel - Ahead(sel, i)
      invariant IsPruned(old(rev.View()), done, rev.View())
      decreases Ahead(sel, i)
    {
      assert lib.IsWellFormed(rev);
      ghost var before := rev.View();
      var _ := DeleteObject(lib, rev, i.value);
      PruneOneMore(old(rev.View()), done, before, i.value, rev.View());
      NextIsAhead(sel, i.value);
      done := done + {i.value};
      i := Next(sel, i.value);
    }
    assert done == sel;
    return Ok(());
  }
}
