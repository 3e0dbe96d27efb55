/** Moving an object within its list or to the list of another object. */
module Relocating {
  import opened ObjectData
  import opened Forest
  import opened Storage
  import opened Wrappers

  /** The documented error of a relocation, apart from lack of memory. */
  function RelocateError(t: Tree, isTransient: bool, ob: Id, attachTo: Id, insertBefore: Id): Option<Error> {
    if !isTransient then Some(RevisionNotTransient)
    else if ob !in t.states then Some(ObjectDoesntExist)
    else if attachTo != NULL && !IsText(t, ob) then Some(InvalidParent)
    else if attachTo != NULL && attachTo !in t.states then Some(ParentDoesntExist)
    else if attachTo != NULL && !MayAttachTo(t, attachTo) then Some(InvalidParent)
    else if insertBefore != NULL && insertBefore !in Kids(t, attachTo) then
      Some(if insertBefore in t.states then SuccessorNotSibling else SuccessorDoesntExist)
    else None
  }

  /** Inserting at position j of a list which contains the object at position
      i, then removing the old entry, which the insertion may have shifted. */
  function InsertThenRemove(s: seq<Id>, i: nat, j: nat): seq<Id>
    requires i < |s| && j <= |s|
  {
    var longer := s[..j] + [s[i]] + s[j..];
    var pos := if j <= i then i + 1 else i;
    longer[..pos] + longer[pos + 1..]
  }

  lemma InsertThenRemoveMoves(s: seq<Id>, i: nat, j: nat, before: Id)
    requires NoDuplicates(s)
    requires i < |s| && j == IndexOf(s, before)
    ensures InsertThenRemove(s, i, j) ==
      if before == s[i] then s else InsertBefore(Without(s, s[i]), s[i], before)
  {
    if before == s[i] {
      InsertThenRemoveInPlace(s, i);
    } else {
      InsertThenRemoveAt(s, i, j);
      WithoutAt(s, i);
      IndexAfterRemoval(s, i, before);
      InsertBeforeAt(Without(s, s[i]), s[i], before);
    }
  }

  lemma InsertThenRemoveInPlace(s: seq<Id>, i: nat)
    requires i < |s|
    ensures InsertThenRemove(s, i, i) == s
  {
    var longer := s[..i] + [s[i]] + s[i..];
    assert longer[..i + 1] == s[..i + 1] && longer[i + 2..] == s[i + 1..];
  }

  lemma InsertThenRemoveAt(s: seq<Id>, i: nat, j: nat)
    requires i < |s| && j <= |s| && i != j
    ensures
      var u := s[..i] + s[i + 1..];
      var k := if j <= i then j else j - 1;
      InsertThenRemove(s, i, j) == u[..k] + [s[i]] + u[k..]
  {
    var longer := s[..j] + [s[i]] + s[j..];
    var u := s[..i] + s[i + 1..];
    if j < i {
      assert longer[..i + 1] == s[..j] + [s[i]] + s[j..i];
      assert longer[i + 2..] == s[i + 1..];
      assert u[..j] == s[..j] && u[j..] == s[j..i] + s[i + 1..];
    } else {
      assert longer[..i] == s[..i];
      assert longer[i + 1..] == s[i + 1..j] + [s[i]] + s[j..];
      assert u[..j - 1] == s[..i] + s[i + 1..j] && u[j - 1..] == s[j..];
    }
  }

  lemma {:induction false} IndexAfterRemoval(s: seq<Id>, i: nat, before: Id)
    requires i < |s| && before != s[i]
    ensures IndexOf(s[..i] + s[i + 1..], before) ==
      var j := IndexOf(s, before); if j <= i then j else j - 1
  {
    if i == 0 {
      assert s[..0] + s[1..] == s[1..];
    } else {
      var u := s[..i] + s[i + 1..];
      assert u[1..] == s[1..][..i - 1] + s[1..][i..];
      IndexAfterRemoval(s[1..], i - 1, before);
    }
  }

  /** The manipulation of the lists has the effect of a relocation. */
  lemma MoveIsRelocate(t: Tree, ob: Id, to: Id, before: Id, u: Tree)
    requires IsForest(t) && ob in t.states
    requires u.states == t.states && u.parent == t.parent[ob := to]
    requires forall p :: p != to && p != t.parent[ob] ==> Kids(u, p) == Kids(t, p)
    requires
      var from := t.parent[ob];
      var i := IndexOf(Kids(t, from), ob);
      var j := IndexOf(Kids(t, to), before);
      EntryIsValid(t, ob) &&
      if from == to then
        Kids(u, to) == InsertThenRemove(Kids(t, to), i, j)
      else
        && Kids(u, to) == Kids(t, to)[..j] + [ob] + Kids(t, to)[j..]
        && Kids(u, from) == Kids(t, from)[..i] + Kids(t, from)[i + 1..]
    ensures Same(u, Relocate(t, ob, to, before))
  {
    assert EntryIsValid(t, ob);
    var from := t.parent[ob];
    assert ListIsValid(t, from) && ListIsValid(t, to);
    var i := IndexOf(Kids(t, from), ob);
    var r := Relocate(t, ob, to, before);
    if from == to {
      InsertThenRemoveMoves(Kids(t, to), i, IndexOf(Kids(t, to), before), before);
      assert Kids(u, to) == Kids(r, to);
    } else {
      WithoutAt(Kids(t, from), i);
      WithoutAbsent(Kids(t, to), ob);
      InsertBeforeAt(Kids(t, to), ob, before);
      assert Kids(u, to) == Kids(r, to);
      assert Kids(u, from) == Kids(r, from);
    }
    forall p
      ensures Kids(u, p) == Kids(r, p)
    {
      if p != to && p != from {
        assert Kids(r, p) == Kids(t, p);
      }
    }
  }

  /** Change the location of an object in the object structure of a transient
      revision. */
  method RelocateObject(lib: Library, rev: Revision, ob: Id, attachTo: Id, insertBefore: Id)
    returns (r: Result<()>)
    requires lib.Valid() && rev in lib.live
    modifies rev`children, rev`parent
    ensures lib.Valid() && lib.OthersUntouched(rev)
    ensures !rev.isTransient ==> rev.View() == old(rev.View())
    ensures r.Err? ==> Same(rev.View(), old(rev.View()))
    ensures var e := RelocateError(old(rev.View()), rev.isTransient, ob, attachTo, insertBefore);
      if e.Some? then r == Err(e.value) else r.Ok? || r == Err(OutOfMemory)
    ensures r.Ok? ==> ob in old(rev.parent)
    ensures r.Ok? ==> Same(rev.View(), Relocate(old(rev.View()), ob, attachTo, insertBefore))
  {
    if !rev.isTransient {
      return Err(RevisionNotTransient);
    }
    if attachTo != NULL {
      if ob !in rev.obstates {
        return Err(ObjectDoesntExist);
      }
      if !rev.obstates[ob].data.TextData? {
        return Err(InvalidParent);
      }
      if attachTo !in rev.obstates {
        return Err(ParentDoesntExist);
      }
      if !CanHaveChildren(rev.obstates[attachTo].data) {
        return Err(InvalidParent);
      }
    } else if ob !in rev.obstates {
      return Err(ObjectDoesntExist);
    }
    assert old(lib.IsWellFormed(rev));
    r := Move(rev, ob, attachTo, insertBefore);
    if r.Ok? {
      RelocateKeepsForest(old(rev.View()), ob, attachTo, insertBefore);
      SameIsForest(rev.View(), Relocate(old(rev.View()), ob, attachTo, insertBefore));
    } else {
      SameIsForest(rev.View(), old(rev.View()));
    }
    lib.StaysValid(rev);
  }

  /** The list manipulation proper: the new entry is added first because
      removing the old one can't fail. */
  method Move(rev: Revision, ob: Id, attachTo: Id, insertBefore: Id) returns (r: Result<()>)
    requires IsForest(rev.View()) && ob in rev.obstates
    requires attachTo != NULL ==> IsText(rev.View(), ob) && MayAttachTo(rev.View(), attachTo)
    modifies rev`children, rev`parent
    ensures rev.children.Keys == old(rev.children.Keys) + {attachTo}
    ensures r.Err? ==> Same(rev.View(), old(rev.View()))
    ensures if insertBefore == NULL || insertBefore in Kids(old(rev.View()), attachTo)
      then r.Ok? || r == Err(OutOfMemory)
      else r == Err(if insertBefore in rev.obstates then SuccessorNotSibling else SuccessorDoesntExist)
    ensures r.Ok? ==> Same(rev.View(), Relocate(old(rev.View()), ob, attachTo, insertBefore))
  {
    ghost var t := rev.View();
    assert EntryIsValid(t, ob);
    var parent := rev.parent[ob];
    if attachTo !in rev.children {
      rev.children := rev.children[attachTo := []];
    }
    var newChildren := rev.children[attachTo];
    var j := |newChildren|;
    if insertBefore != NULL {
      j := IndexOf(newChildren, insertBefore);
      if j == |newChildren| {
        return Err(if insertBefore in rev.obstates then SuccessorNotSibling else SuccessorDoesntExist);
      }
    }
    assert j == IndexOf(newChildren, insertBefore) by {
      assert ListIsValid(t, attachTo) && NULL !in newChildren;
    }
    var outOfMemory := *;
    if outOfMemory {
      return Err(OutOfMemory);
    }
    MoveEntry(rev, ob, parent, attachTo, j, insertBefore != NULL);
    rev.parent := rev.parent[ob := attachTo];
    MoveIsRelocate(t, ob, attachTo, insertBefore, rev.View());
    return Ok(());
  }

  /** Insert the new entry, then remove the old one.  Appending, as opposed to
      inserting, doesn't shift the old entry. */
  method MoveEntry(rev: Revision, ob: Id, parent: Id, attachTo: Id, j: nat, inserting: bool)
    requires parent in rev.children && attachTo in rev.children
    requires ob in rev.children[parent]
    requires j <= |rev.children[attachTo]|
    requires inserting || j == |rev.children[attachTo]|
    modifies rev`children
    ensures rev.children.Keys == old(rev.children.Keys)
    ensures forall p :: p in rev.children && p != parent && p != attachTo ==> rev.children[p] == old(rev.children[p])
    ensures
      var s := old(rev.children[attachTo]);
      var u := old(rev.children[parent]);
      var i := IndexOf(u, ob);
      if parent == attachTo then
        rev.children[attachTo] == InsertThenRemove(s, i, j)
      else
        && rev.children[attachTo] == s[..j] + [ob] + s[j..]
        && rev.children[parent] == u[..i] + u[i + 1..]
  {
    var newChildren := rev.children[attachTo];
    var i := IndexOf(rev.children[parent], ob);
    var pos := i;
    if inserting && attachTo == parent && j <= i {
      pos := pos + 1;
    }
    rev.children := rev.children[attachTo := newChildren[..j] + [ob] + newChildren[j..]];
    var kids := rev.children[parent];
    rev.children := rev.children[parent := kids[..pos] + kids[pos + 1..]];
  }
}
