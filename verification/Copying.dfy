/** Copying objects, together with the objects attached to them, within a
    revision or from one revision to another.  Copies share the states of the
    original objects. */
module Copying {
  import opened ObjectData
  import opened Forest
  import opened Storage
  import opened Wrappers
  import opened Cursors
  import opened Manipulate
  import opened Deleting

  // What copying does

  /** Put some states at the end of a list as new, consecutive objects. */
  function PutAll(t: Tree, first: Id, states: seq<ObState>, p: Id): Tree {
    if states == [] then t
    else
      var n := |states| - 1;
      Put(PutAll(t, first, states[..n], p), first + n, states[n], p)
  }

  lemma PutAllNone(t: Tree, first: Id, states: seq<ObState>, p: Id)
    ensures PutAll(t, first, states[..0], p) == t
  {
  }

  lemma PutAllKeeps(t: Tree, first: Id, states: seq<ObState>, p: Id, k: Id)
    requires k in t.states && k < first
    ensures k in PutAll(t, first, states, p).states && PutAll(t, first, states, p).states[k] == t.states[k]
  {
  }

  lemma PutAllOneMore(t: Tree, first: Id, states: seq<ObState>, p: Id, k: nat, u: Tree)
    requires k < |states|
    requires u == PutAll(t, first, states[..k], p)
    ensures Put(u, first + k, states[k], p) == PutAll(t, first, states[..k + 1], p)
  {
    assert states[..k + 1][..k] == states[..k];
  }

  function KidStates(s: Tree, ob: Id): (states: seq<ObState>)
    requires forall k :: k in Kids(s, ob) ==> k in s.states
    ensures |states| == |Kids(s, ob)|
    ensures forall i :: 0 <= i < |states| ==> Kids(s, ob)[i] in s.states && states[i] == s.states[Kids(s, ob)[i]]
  {
    seq(|Kids(s, ob)|, i requires 0 <= i < |Kids(s, ob)| => assert Kids(s, ob)[i] in Kids(s, ob); s.states[Kids(s, ob)[i]])
  }

  lemma KidsExist(s: Tree, ob: Id)
    requires IsForest(s)
    ensures forall k :: k in Kids(s, ob) ==> k in s.states
    ensures ob in s.states ==> forall k :: k in Kids(s, ob) ==>
      IsLeaf(s, k) && s.states[k].data.TextData? && MayAttachTo(s, ob)
  {
    KidsAreChildren(s, ob);
    forall k | k in Kids(s, ob)
      ensures ob != NULL ==> IsLeaf(s, k) && s.states[k].data.TextData? && MayAttachTo(s, ob)
    {
      assert EntryIsValid(s, k);
    }
  }

  /** Append a copy of an object of s, numbered from id + 1, to the objects
      attached to p, with copies of the objects attached to it. */
  ghost function CopyUnder(t: Tree, s: Tree, ob: Id, p: Id, id: Id): Tree
    requires IsForest(s) && ob in s.states
  {
    KidsExist(s, ob);
    PutAll(Put(t, id + 1, s.states[ob], p), id + 2, KidStates(s, ob), id + 1)
  }

  // The destination while copying

  /** Whether t is base plus some additional objects, with additional objects
      only at the end of the toplevel list and in each other's lists. */
  ghost predicate Extends(t: Tree, base: Tree, extra: seq<Id>) {
    && (forall k :: k in base.states ==> k in t.states && t.states[k] == base.states[k])
    && (forall k :: k in base.parent ==> k in t.parent && t.parent[k] == base.parent[k])
    && (forall k :: k in base.states ==> Kids(t, k) == Kids(base, k))
    && Kids(base, NULL) <= Kids(t, NULL)
    && (forall k :: k in t.states ==> k in base.states || k in extra)
    && (forall k :: k in extra ==> k !in base.states)
  }

  lemma ExtendsItself(t: Tree)
    ensures Extends(t, t, [])
  {
  }

  lemma PutExtends(t: Tree, base: Tree, extra: seq<Id>, ob: Id, s: ObState, p: Id)
    requires Extends(t, base, extra) && IsForest(base)
    requires ob !in t.states && ob !in t.parent
    requires p == NULL || p !in base.states
    ensures Extends(Put(t, ob, s, p), base, extra + [ob])
  {
    var u := Put(t, ob, s, p);
    assert ob in extra + [ob];
    assert NULL !in base.states;
    assert Kids(t, NULL) <= Kids(u, NULL);
  }

  /** Taking back the additional objects in any order restores the base. */
  lemma DeleteExtends(t: Tree, base: Tree, extra: seq<Id>, ob: Id)
    requires Extends(t, base, extra) && IsForest(base) && IsForest(t)
    requires ob in t.parent && ob !in base.states
    ensures Extends(Delete(t, ob), base, extra)
    ensures ob !in Delete(t, ob).states
  {
    var u := Delete(t, ob);
    var p := t.parent[ob];
    KidsAreChildren(t, ob);
    forall k | k in base.states
      ensures k !in Family(t, ob) && Kids(u, k) == Kids(base, k)
    {
      assert EntryIsValid(base, k) && t.parent[k] == base.parent[k];
      DeleteKeepsList(t, ob, k);
      assert ListIsValid(base, k);
      WithoutAbsent(Kids(t, k), ob);
    }
    DeleteKeepsList(t, ob, NULL);
    assert NULL !in t.parent && NULL !in Family(t, ob);
    var n := |Kids(base, NULL)|;
    assert Kids(t, NULL) == Kids(base, NULL) + Kids(t, NULL)[n..];
    WithoutConcat(Kids(base, NULL), Kids(t, NULL)[n..], ob);
    assert ListIsValid(base, NULL);
    WithoutAbsent(Kids(base, NULL), ob);
  }

  lemma ExtendsByNothing(t: Tree, base: Tree)
    requires Extends(t, base, []) && IsForest(base) && IsForest(t)
    ensures Same(t, base)
  {
    assert t.states.Keys == base.states.Keys;
    assert ListIsValid(t, NULL);
    if Kids(t, NULL) != [] {
      var j := |Kids(t, NULL)| - 1;
      var k := Kids(t, NULL)[j];
      assert k in Kids(t, NULL);
      assert EntryIsValid(base, k);
      var i := IndexOf(Kids(base, NULL), k);
      assert Kids(t, NULL)[i] == k;
      assert i == j;
    }
    forall p
      ensures Kids(t, p) == Kids(base, p)
    {
      if p != NULL && p !in base.states {
        LeafIfNotHolder(t, p);
        LeafIfNotHolder(base, p);
      }
    }
  }

  /** The state of affairs while copying: the destination extends `base`, and
      the source is still `s`, even if both are the same revision. */
  ghost predicate IsCopying(dest: Revision, src: Revision, base: Tree, s: Tree, copied: seq<Id>)
    reads dest`obstates, dest`children, dest`parent, src`obstates, src`children, src`parent
  {
    && Extends(dest.View(), base, copied)
    && if src == dest then s == base else src.View() == s
  }

  lemma SourceIsIntact(dest: Revision, src: Revision, base: Tree, s: Tree, copied: seq<Id>, ob: Id)
    requires IsCopying(dest, src, base, s, copied) && IsForest(s) && ob in s.states
    ensures ob in src.obstates && src.obstates[ob] == s.states[ob]
    ensures Kids(src.View(), ob) == Kids(s, ob)
    ensures forall k :: k in Kids(s, ob) ==> k in src.obstates && src.obstates[k] == s.states[k]
  {
    KidsExist(s, ob);
  }

  // Copying proper

  /** Put a shared state into a revision as a new object, or undo all changes
      if there is not enough memory. */
  method InsertShared(lib: Library, dest: Revision, ob: Id, state: ObState, attachTo: Id) returns (ok: bool)
    requires lib.Accounted() && dest in lib.live && state in lib.states
    requires ob !in dest.obstates && ob !in dest.parent
    modifies lib`held, state, dest`obstates, dest`children, dest`parent
    ensures lib.Accounted()
    ensures !ok ==>
      && Same(dest.View(), old(dest.View()))
      && dest.children.Keys <= old(dest.children.Keys) + {attachTo}
    ensures ok ==> dest.View() == Put(old(dest.View()), ob, state, attachTo)
  {
    ok := AddEntry(lib, dest, ob, attachTo);
    if !ok {
      return;
    }
    ok := Share(lib, dest, ob, state);
    if !ok {
      RemoveEntry(lib, dest, ob, attachTo, old(dest.View()));
    }
  }

  method Share(lib: Library, dest: Revision, ob: Id, state: ObState) returns (ok: bool)
    requires lib.Accounted() && dest in lib.live && state in lib.states
    requires ob !in dest.obstates
    modifies lib`held, state, dest`obstates
    ensures lib.Accounted()
    ensures dest.obstates == if ok then old(dest.obstates)[ob := state] else old(dest.obstates)
  {
    var outOfMemory := *;
    if outOfMemory {
      return false;
    }
    assert (dest, ob) !in lib.held && (null, ob) !in lib.held;
    assert lib.held - {(null, ob)} == lib.held;
    dest.obstates := dest.obstates[ob := state];
    lib.IncRefcnt(state, (dest, ob));
    lib.StaysSettled(dest, ob, state);
    return true;
  }

  /** Create a copy of a single object.  If there is not enough memory to
      remember it, the object is deleted again. */
  method PutCopy(lib: Library, dest: Revision, state: ObState, attachTo: Id, copied: seq<Id>, ghost base: Tree)
    returns (ok: bool, destOb: Id, all: seq<Id>)
    requires lib.Valid() && dest in lib.live && dest.isTransient && state in lib.states
    requires IsForest(base) && Extends(dest.View(), base, copied)
    requires attachTo != NULL ==>
      attachTo !in base.states && MayAttachTo(dest.View(), attachTo) && state.data.TextData?
    modifies lib`nextObjectId, lib`states, lib`held, lib.states, dest
    ensures lib.Valid() && lib.OthersUntouched(dest) && lib.states <= old(lib.states)
    ensures destOb == lib.nextObjectId == old(lib.nextObjectId) + 1
    ensures destOb !in base.states && Extends(dest.View(), base, all)
    ensures ok ==> dest.View() == Put(old(dest.View()), destOb, state, attachTo)
    ensures ok ==> destOb in dest.obstates && dest.obstates[destOb] == state
  {
    assert old(lib.IsWellFormed(dest));
    ok, destOb := PutOrUndo(lib, dest, state, attachTo);
    all := copied;
    if ok {
      PutExtends(old(dest.View()), base, copied, destOb, state, attachTo);
      all := copied + [destOb];
    }
  }

  method PutOrUndo(lib: Library, dest: Revision, state: ObState, attachTo: Id) returns (ok: bool, destOb: Id)
    requires lib.Valid() && dest in lib.live && dest.isTransient && state in lib.states
    requires attachTo != NULL ==> MayAttachTo(dest.View(), attachTo) && state.data.TextData?
    modifies lib`nextObjectId, lib`states, lib`held, lib.states, dest
    ensures lib.Valid() && lib.OthersUntouched(dest) && lib.states <= old(lib.states)
    ensures destOb == lib.nextObjectId == old(lib.nextObjectId) + 1
    ensures destOb !in old(dest.obstates) && destOb !in old(dest.parent)
    ensures ok ==> dest.View() == Put(old(dest.View()), destOb, state, attachTo)
    ensures ok ==> destOb in dest.obstates && dest.obstates[destOb] == state
    ensures !ok ==> Same(dest.View(), old(dest.View()))
  {
    assert old(lib.IsWellFormed(dest));
    lib.nextObjectId := lib.nextObjectId + 1;
    destOb := lib.nextObjectId;
    ok := InsertShared(lib, dest, destOb, state, attachTo);
    if !ok {
      SameIsForest(dest.View(), old(dest.View()));
      lib.StaysValid(dest);
      return;
    }
    PutKeepsForest(old(dest.View()), destOb, state, attachTo);
    lib.StaysValid(dest);
    var outOfMemory := *;
    if outOfMemory {
      var _ := DeleteObject(lib, dest, destOb);
      DeleteUndoesPut(old(dest.View()), destOb, state, attachTo);
      ok := false;
    }
  }

  lemma DeleteUndoesPut(t: Tree, ob: Id, s: ObState, p: Id)
    requires IsForest(t) && ob !in t.states && ob != NULL
    requires p != NULL ==> MayAttachTo(t, p)
    ensures Same(Delete(Put(t, ob, s, p), ob), t)
  {
    var u := Put(t, ob, s, p);
    LeafIfNotHolder(t, ob);
    assert Family(u, ob) == {ob};
    assert ListIsValid(t, p) && ob !in Kids(t, p);
    WithoutConcat(Kids(t, p), [ob], ob);
    WithoutAbsent(Kids(t, p), ob);
    assert u.states - {ob} == t.states;
    assert u.parent - {ob} == t.parent;
  }

  /** Copy an object and, recursively, the objects attached to it.  `copied`
      collects all new objects so that they can be deleted on failure. */
  method CopyTree(lib: Library, dest: Revision, src: Revision, srcOb: Id, state: ObState, attachTo: Id,
                  copied: seq<Id>, ghost base: Tree, ghost s: Tree, ghost depth: nat)
    returns (ok: bool, destOb: Id, all: seq<Id>)
    requires lib.Valid() && dest in lib.live && src in lib.live && dest.isTransient
    requires IsForest(base) && IsForest(s) && IsCopying(dest, src, base, s, copied)
    requires srcOb in s.states && s.states[srcOb] == state
    requires depth == 0 ==> Kids(s, srcOb) == []
    requires attachTo != NULL ==>
      attachTo !in base.states && MayAttachTo(dest.View(), attachTo) && state.data.TextData?
    modifies lib`nextObjectId, lib`states, lib`held, lib.states, dest
    ensures lib.Valid() && lib.OthersUntouched(dest) && lib.states <= old(lib.states)
    ensures lib.nextObjectId >= old(lib.nextObjectId)
    ensures Extends(dest.View(), base, all)
    ensures ok ==>
      && destOb == old(lib.nextObjectId) + 1
      && dest.View() == CopyUnder(old(dest.View()), s, srcOb, attachTo, old(lib.nextObjectId))
      && lib.nextObjectId == destOb + |Kids(s, srcOb)|
    decreases depth, 2
  {
    hide Library.Valid, IsForest, Extends, Put, PutAll, CopyUnder, KidStates;
    assert state in lib.states by {
      SourceIsIntact(dest, src, base, s, copied, srcOb);
      lib.StatesAreAllocated(src);
    }
    ghost var t := dest.View();
    ok, destOb, all := PutCopy(lib, dest, state, attachTo, copied, base);
    if ok {
      assert destOb - 1 == old(lib.nextObjectId);
      SourceIsIntact(dest, src, base, s, all, srcOb);
      ok, all := CopyRest(lib, dest, src, srcOb, attachTo, destOb, all, base, s, depth, t);
    }
  }

  method CopyRest(lib: Library, dest: Revision, src: Revision, srcOb: Id, ghost attachTo: Id, destOb: Id,
                  copied: seq<Id>, ghost base: Tree, ghost s: Tree, ghost depth: nat, ghost t: Tree)
    returns (ok: bool, all: seq<Id>)
    requires lib.Valid() && dest in lib.live && src in lib.live && dest.isTransient
    requires IsForest(base) && IsForest(s) && IsCopying(dest, src, base, s, copied)
    requires srcOb in s.states && Kids(src.View(), srcOb) == Kids(s, srcOb)
    requires depth == 0 ==> Kids(s, srcOb) == []
    requires destOb == lib.nextObjectId > 0 && destOb !in base.states
    requires dest.View() == Put(t, destOb, s.states[srcOb], attachTo)
    requires destOb in dest.obstates && dest.obstates[destOb] == s.states[srcOb]
    modifies lib`nextObjectId, lib`states, lib`held, lib.states, dest
    ensures lib.Valid() && lib.OthersUntouched(dest) && lib.states <= old(lib.states)
    ensures lib.nextObjectId >= old(lib.nextObjectId)
    ensures Extends(dest.View(), base, all)
    ensures ok ==>
      && dest.View() == CopyUnder(t, s, srcOb, attachTo, destOb - 1)
      && lib.nextObjectId == destOb + |Kids(s, srcOb)|
    decreases depth, 1, 1
  {
    hide Library.Valid, IsForest, Extends, Put, PutAll, KidStates;
    if srcOb in src.children {
      ok, all := CopyChildren(lib, dest, src, srcOb, destOb, copied, base, s, depth);
    } else {
      CopyOfLeaf(t, s, srcOb, attachTo, destOb - 1);
      ok, all := true, copied;
    }
  }

  lemma CopyOfLeaf(t: Tree, s: Tree, ob: Id, p: Id, id: Id)
    requires IsForest(s) && ob in s.states && Kids(s, ob) == []
    ensures CopyUnder(t, s, ob, p, id) == Put(t, id + 1, s.states[ob], p)
  {
    assert KidStates(s, ob) == [];
  }

  /** Copy the objects attached to an object to the copy of that object. */
  method CopyChildren(lib: Library, dest: Revision, src: Revision, srcOb: Id, destOb: Id,
                      copied: seq<Id>, ghost base: Tree, ghost s: Tree, ghost depth: nat)
    returns (ok: bool, all: seq<Id>)
    requires lib.Valid() && dest in lib.live && src in lib.live && dest.isTransient
    requires IsForest(base) && IsForest(s) && IsCopying(dest, src, base, s, copied)
    requires srcOb in s.states && srcOb in src.children && src.children[srcOb] == Kids(s, srcOb)
    requires depth == 0 ==> Kids(s, srcOb) == []
    requires destOb !in base.states && destOb in dest.obstates && dest.obstates[destOb] == s.states[srcOb]
    requires lib.nextObjectId == destOb
    modifies lib`nextObjectId, lib`states, lib`held, lib.states, dest
    ensures lib.Valid() && lib.OthersUntouched(dest) && lib.states <= old(lib.states)
    ensures lib.nextObjectId >= old(lib.nextObjectId)
    ensures Extends(dest.View(), base, all)
    ensures ok ==>
      && lib.nextObjectId == destOb + |Kids(s, srcOb)|
      && (KidsExist(s, srcOb);
         dest.View() == PutAll(old(dest.View()), destOb + 1, KidStates(s, srcOb), destOb))
    decreases depth, 1, 0
  {
    hide Library.Valid, IsForest, Extends, Put, PutAll, CopyUnder, KidStates;
    ghost var t := dest.View();
    KidsExist(s, srcOb);
    ghost var states := KidStates(s, srcOb);
    PutAllNone(t, destOb + 1, states, destOb);
    var children := src.children[srcOb];
    var k := 0;
    all := copied;
    while k < |children|
      invariant k <= |children|
      invariant lib.Valid() && lib.OthersUntouched(dest) && lib.states <= old(lib.states)
      invariant Extends(dest.View(), base, all)
      invariant lib.nextObjectId == destOb + k
      invariant dest.View() == PutAll(t, destOb + 1, states[..k], destOb)
    {
      ok, all := CopyNextChild(lib, dest, src, srcOb, children[k], destOb, all, base, s, t, states, k);
      if !ok {
        return;
      }
      k := k + 1;
    }
    assert states[..k] == states;
    return true, all;
  }

  method CopyNextChild(lib: Library, dest: Revision, src: Revision, ghost srcOb: Id, child: Id, destOb: Id,
                       copied: seq<Id>, ghost base: Tree, ghost s: Tree,
                       ghost t: Tree, ghost states: seq<ObState>, ghost k: nat)
    returns (ok: bool, all: seq<Id>)
    requires lib.Valid() && dest in lib.live && src in lib.live && dest.isTransient
    requires IsForest(base) && IsForest(s) && IsCopying(dest, src, base, s, copied)
    requires srcOb in s.states && child in Kids(s, srcOb) && child in s.states
    requires destOb !in base.states && destOb in t.states && t.states[destOb] == s.states[srcOb]
    requires lib.nextObjectId == destOb + k
    requires k < |states| && states[k] == s.states[child]
    requires dest.View() == PutAll(t, destOb + 1, states[..k], destOb)
    modifies lib`nextObjectId, lib`states, lib`held, lib.states, dest
    ensures lib.Valid() && lib.OthersUntouched(dest) && lib.states <= old(lib.states)
    ensures lib.nextObjectId >= old(lib.nextObjectId)
    ensures Extends(dest.View(), base, all)
    ensures ok ==>
      && lib.nextObjectId == destOb + k + 1
      && dest.View() == PutAll(t, destOb + 1, states[..k + 1], destOb)
    decreases 0, 4
  {
    hide Library.Valid, IsForest, Extends, Put, PutAll, CopyUnder, KidStates;
    PutAllOneMore(t, destOb + 1, states, destOb, k, dest.View());
    PutAllKeeps(t, destOb + 1, states[..k], destOb, destOb);
    ok, all := CopyChild(lib, dest, src, srcOb, child, destOb, copied, base, s, destOb + 1 + k);
  }

  method CopyChild(lib: Library, dest: Revision, src: Revision, ghost srcOb: Id, child: Id, destOb: Id,
                   copied: seq<Id>, ghost base: Tree, ghost s: Tree, ghost id: Id)
    returns (ok: bool, all: seq<Id>)
    requires lib.Valid() && dest in lib.live && src in lib.live && dest.isTransient
    requires IsForest(base) && IsForest(s) && IsCopying(dest, src, base, s, copied)
    requires srcOb in s.states && child in Kids(s, srcOb)
    requires id == lib.nextObjectId + 1
    requires destOb !in base.states && destOb in dest.obstates && dest.obstates[destOb] == s.states[srcOb]
    modifies lib`nextObjectId, lib`states, lib`held, lib.states, dest
    ensures lib.Valid() && lib.OthersUntouched(dest) && lib.states <= old(lib.states)
    ensures lib.nextObjectId >= old(lib.nextObjectId)
    ensures Extends(dest.View(), base, all)
    ensures child in s.states
    ensures ok ==>
      && lib.nextObjectId == id
      && dest.View() == Put(old(dest.View()), id, s.states[child], destOb)
    decreases 0, 3
  {
    hide Library.Valid, IsForest, Extends, Put, PutAll, CopyUnder, KidStates;
    SourceIsIntact(dest, src, base, s, copied, srcOb);
    KidsExist(s, srcOb);
    CopyOfLeaf(dest.View(), s, child, destOb, lib.nextObjectId);
    var copy: Id;
    ok, copy, all := CopyTree(lib, dest, src, child, src.obstates[child], destOb, copied, base, s, 0);
  }

  /** Delete all objects which have been copied so far. */
  method RollBack(lib: Library, dest: Revision, copied: seq<Id>, ghost base: Tree)
    requires lib.Valid() && dest in lib.live && dest.isTransient
    requires IsForest(base) && Extends(dest.View(), base, copied)
    modifies lib`states, lib`held, lib.states, dest
    ensures forall s :: s in lib.states ==> s in old(lib.states) || fresh(s)
    ensures lib.Valid() && lib.OthersUntouched(dest)
    ensures Same(dest.View(), base)
  {
    hide Library.Valid, Extends, Delete, IsForest, Same;
    var i := 0;
    assert copied[0..] == copied;
    while i < |copied|
      invariant i <= |copied|
      invariant lib.Valid() && lib.OthersUntouched(dest) && lib.states <= old(lib.states)
      invariant Extends(dest.View(), base, copied[i..])
    {
      RollBackOne(lib, dest, copied[i..], base);
      assert copied[i..][1..] == copied[i + 1..];
      i := i + 1;
    }
    assert copied[i..] == [];
    RolledBack(lib, dest, base);
  }

  lemma RolledBack(lib: Library, dest: Revision, base: Tree)
    requires lib.Valid() && dest in lib.live && IsForest(base) && Extends(dest.View(), base, [])
    ensures Same(dest.View(), base)
  {
    assert lib.IsWellFormed(dest);
    ExtendsByNothing(dest.View(), base);
  }

  method RollBackOne(lib: Library, dest: Revision, copied: seq<Id>, ghost base: Tree)
    requires lib.Valid() && dest in lib.live && dest.isTransient
    requires IsForest(base) && Extends(dest.View(), base, copied) && copied != []
    modifies lib`states, lib`held, lib.states, dest
    ensures lib.Valid() && lib.OthersUntouched(dest) && lib.states <= old(lib.states)
    ensures Extends(dest.View(), base, copied[1..])
  {
    ghost var t := dest.View();
    assert lib.IsWellFormed(dest);
    hide Library.Valid, Delete;
    var r := DeleteObject(lib, dest, copied[0]);
    if r.Ok? {
      DeleteExtends(t, base, copied, copied[0]);
    }
    ExtendsByFewer(dest.View(), base, copied);
  }

  lemma ExtendsByFewer(t: Tree, base: Tree, extra: seq<Id>)
    requires Extends(t, base, extra) && extra != [] && extra[0] !in t.states
    ensures Extends(t, base, extra[1..])
  {
    assert extra == [extra[0]] + extra[1..];
  }

  /** Copy an object to a transient revision. */
  method CopyObject(lib: Library, dest: Revision, src: Revision, ob: Id) returns (r: Result<Id>)
    requires lib.Valid() && dest in lib.live && src in lib.live
    modifies lib`nextObjectId, lib`states, lib`held, lib.states, dest
    ensures forall s :: s in lib.states ==> s in old(lib.states) || fresh(s)
    ensures lib.Valid() && lib.OthersUntouched(dest)
    ensures lib.nextObjectId >= old(lib.nextObjectId)
    ensures !dest.isTransient ==> dest.View() == old(dest.View())
    ensures r.Err? ==> Same(dest.View(), old(dest.View()))
    ensures if !dest.isTransient then r == Err(RevisionNotTransient)
            else if ob !in old(src.obstates) then r == Err(ObjectDoesntExist)
            else r.Ok? || r == Err(OutOfMemory)
    ensures r.Ok? ==>
      && ob in old(src.obstates) && IsForest(old(src.View()))
      && r.value == old(lib.nextObjectId) + 1
      && dest.View() == CopyUnder(old(dest.View()), old(src.View()), ob, NULL, old(lib.nextObjectId))
  {
    if !dest.isTransient {
      return Err(RevisionNotTransient);
    }
    if ob !in src.obstates {
      return Err(ObjectDoesntExist);
    }
    ghost var base, s := dest.View(), src.View();
    assert lib.IsWellFormed(dest) && lib.IsWellFormed(src);
    ExtendsItself(base);
    hide Library.Valid, IsForest, Extends, CopyUnder;
    var ok, destOb, copied := CopyTree(lib, dest, src, ob, src.obstates[ob], NULL, [], base, s, 1);
    if ok {
      return Ok(destOb);
    }
    RollBack(lib, dest, copied, base);
    return Err(OutOfMemory);
  }
}
