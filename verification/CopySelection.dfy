/** Copying the selected objects of a revision, and what a copy is. */
module CopySelection {
  import opened ObjectData
  import opened Forest
  import opened Storage
  import opened Cursors
  import opened Copying

  // What copying several objects does

  datatype Copies = Copies(tree: Tree, roots: seq<Id>, lastId: Id)

  /** Append a copy of an object of s to the top level. */
  ghost function CopyStep(c: Copies, s: Tree, ob: Id): Copies
    requires IsForest(s) && ob in s.states
  {
    Copies(CopyUnder(c.tree, s, ob, NULL, c.lastId), c.roots + [c.lastId + 1], c.lastId + 1 + |Kids(s, ob)|)
  }

  /** Append copies of some objects of s, one after another. */
  ghost function CopyAll(t: Tree, s: Tree, obs: seq<Id>, id: Id): (r: Copies)
    requires IsForest(s)
    requires forall ob :: ob in obs ==> ob in s.states
    ensures |r.roots| == |obs|
  {
    if obs == [] then Copies(t, [], id)
    else
      var n := |obs| - 1;
      CopyStep(CopyAll(t, s, obs[..n], id), s, obs[n])
  }

  /** Whether c is a copy of an object of s: it has the same state and, in the
      same order, children with the same states. */
  ghost predicate IsCopyOf(t: Tree, c: Id, s: Tree, ob: Id)
    requires ob in s.states
  {
    && c in t.states && t.states[c] == s.states[ob]
    && |Kids(t, c)| == |Kids(s, ob)|
    && forall i {:trigger Kids(t, c)[i]} :: 0 <= i < |Kids(t, c)| ==> SameState(t, Kids(t, c)[i], s, Kids(s, ob)[i])
  }

  ghost predicate SameState(t: Tree, c: Id, s: Tree, ob: Id) {
    c in t.states && ob in s.states && t.states[c] == s.states[ob]
  }

  /** The ids first, first + 1, ... */
  function Numbered(first: Id, n: nat): (ids: seq<Id>)
    ensures |ids| == n
    ensures forall i :: 0 <= i < n ==> ids[i] == first + i
  {
    seq(n, i requires 0 <= i < n => first + i)
  }

  /** Putting states at the end of a list adds just these, numbered
      consecutively ... */
  lemma {:induction false} PutAllAdds(t: Tree, first: Id, states: seq<ObState>, p: Id)
    requires forall k :: k in t.states ==> k < first
    ensures
      var u := PutAll(t, first, states, p);
      && (forall k :: k in u.states <==> k in t.states || first <= k < first + |states|)
      && (forall k :: k in t.states ==> u.states[k] == t.states[k])
      && (forall k :: first <= k < first + |states| ==> u.states[k] == states[k - first])
  {
    if states != [] {
      var n := |states| - 1;
      var v := PutAll(t, first, states[..n], p);
      PutAllAdds(t, first, states[..n], p);
      assert PutAll(t, first, states, p).states == v.states[first + n := states[n]];
    }
  }

  /** ... and changes no other list. */
  lemma {:induction false} PutAllLists(t: Tree, first: Id, states: seq<ObState>, p: Id)
    ensures
      var u := PutAll(t, first, states, p);
      && (forall q :: q != p ==> Kids(u, q) == Kids(t, q))
      && Kids(u, p) == Kids(t, p) + Numbered(first, |states|)
  {
    if states == [] {
      assert Kids(t, p) + Numbered(first, 0) == Kids(t, p);
    } else {
      var n := |states| - 1;
      var v := PutAll(t, first, states[..n], p);
      PutAllLists(t, first, states[..n], p);
      assert Kids(t, p) + Numbered(first, n) + [first + n] == Kids(t, p) + Numbered(first, |states|);
      hide PutAll, Put, Kids;
      PutLists(v, first + n, states[n], p);
      assert PutAll(t, first, states, p) == Put(v, first + n, states[n], p) by {
        PutAllStep(t, first, states, p);
      }
    }
  }

  lemma PutAllStep(t: Tree, first: Id, states: seq<ObState>, p: Id)
    requires states != []
    ensures
      var n := |states| - 1;
      PutAll(t, first, states, p) == Put(PutAll(t, first, states[..n], p), first + n, states[n], p)
  {
  }

  lemma PutLists(t: Tree, ob: Id, s: ObState, p: Id)
    ensures
      var u := Put(t, ob, s, p);
      && (forall q :: q != p ==> Kids(u, q) == Kids(t, q))
      && Kids(u, p) == Kids(t, p) + [ob]
  {
  }

  /** Copying an object adds a new object and new children ... */
  lemma CopyUnderStates(t: Tree, s: Tree, ob: Id, id: Id)
    requires IsForest(s) && ob in s.states
    requires forall k :: k in t.states ==> k <= id
    ensures
      var u := CopyUnder(t, s, ob, NULL, id);
      && (forall k :: k in u.states <==> k in t.states || id < k <= id + 1 + |Kids(s, ob)|)
      && (forall k :: k in t.states ==> u.states[k] == t.states[k])
      && u.states[id + 1] == s.states[ob]
      && (KidsExist(s, ob);
          forall k :: id + 1 < k <= id + 1 + |Kids(s, ob)| ==> u.states[k] == KidStates(s, ob)[k - (id + 2)])
  {
    hide IsForest, KidStates;
    KidsExist(s, ob);
    PutAllAdds(Put(t, id + 1, s.states[ob], NULL), id + 2, KidStates(s, ob), id + 1);
  }

  /** ... at the end of the top level; all other lists stay as they are. */
  lemma CopyUnderLists(t: Tree, s: Tree, ob: Id, id: Id)
    requires IsForest(t) && IsForest(s) && ob in s.states && id + 1 !in t.states
    ensures
      var u := CopyUnder(t, s, ob, NULL, id);
      && (forall q :: q in t.states ==> Kids(u, q) == Kids(t, q))
      && Kids(u, NULL) == Kids(t, NULL) + [id + 1]
      && Kids(u, id + 1) == Numbered(id + 2, |Kids(s, ob)|)
  {
    hide Kids, PutAll, Put, IsForest, KidStates;
    KidsExist(s, ob);
    var states := KidStates(s, ob);
    var v := Put(t, id + 1, s.states[ob], NULL);
    assert CopyUnder(t, s, ob, NULL, id) == PutAll(v, id + 2, states, id + 1);
    hide *;
    NewIdIsUnused(t, id + 1);
    PutLists(t, id + 1, s.states[ob], NULL);
    PutAllLists(v, id + 2, states, id + 1);
    assert [] + Numbered(id + 2, |states|) == Numbered(id + 2, |states|);
  }

  /** What has been added is a copy of the object. */
  lemma CopyUnderIsCopy(t: Tree, s: Tree, ob: Id, id: Id)
    requires IsForest(t) && IsForest(s) && ob in s.states
    requires forall k :: k in t.states ==> k <= id
    ensures IsCopyOf(CopyUnder(t, s, ob, NULL, id), id + 1, s, ob)
  {
    hide CopyUnder;
    KidsExist(s, ob);
    CopyUnderStates(t, s, ob, id);
    CopyUnderLists(t, s, ob, id);
    CopyBecause(CopyUnder(t, s, ob, NULL, id), id + 1, s, ob, KidStates(s, ob));
  }

  lemma NewIdIsUnused(t: Tree, k: Id)
    requires IsForest(t) && k !in t.states && k != NULL
    ensures NULL !in t.states && Kids(t, k) == []
  {
    LeafIfNotHolder(t, k);
  }

  lemma CopyBecause(u: Tree, c: Id, s: Tree, ob: Id, states: seq<ObState>)
    requires IsForest(s) && ob in s.states
    requires c in u.states && u.states[c] == s.states[ob]
    requires (KidsExist(s, ob); states == KidStates(s, ob))
    requires Kids(u, c) == Numbered(c + 1, |states|)
    requires forall k :: c < k <= c + |states| ==> k in u.states && u.states[k] == states[k - (c + 1)]
    ensures IsCopyOf(u, c, s, ob)
  {
    KidsExist(s, ob);
    forall i | 0 <= i < |Kids(u, c)|
      ensures SameState(u, Kids(u, c)[i], s, Kids(s, ob)[i])
    {
      assert Kids(u, c)[i] == c + 1 + i;
    }
  }

  /** The forest invariant survives, since the copied types match. */
  lemma {:induction false} PutAllKeepsForest(t: Tree, first: Id, states: seq<ObState>, p: Id)
    requires IsForest(t) && p in t.states && first > 0
    requires states != [] ==> MayAttachTo(t, p)
    requires forall s :: s in states ==> s.data.TextData?
    requires forall k :: k in t.states ==> k < first
    ensures IsForest(PutAll(t, first, states, p))
    ensures forall k :: k in PutAll(t, first, states, p).states ==> k < first + |states|
    ensures p in PutAll(t, first, states, p).states && PutAll(t, first, states, p).states[p] == t.states[p]
  {
    hide IsForest;
    if states != [] {
      var n := |states| - 1;
      assert forall i :: 0 <= i < n ==> states[..n][i] == states[i] && states[i] in states;
      PutAllKeepsForest(t, first, states[..n], p);
      assert states[n] in states;
      PutKeepsForest(PutAll(t, first, states[..n], p), first + n, states[n], p);
    }
  }

  lemma CopyUnderKeepsForest(t: Tree, s: Tree, ob: Id, id: Id)
    requires IsForest(t) && IsForest(s) && ob in s.states
    requires forall k :: k in t.states ==> k <= id
    ensures IsForest(CopyUnder(t, s, ob, NULL, id))
  {
    KidsExist(s, ob);
    var states := KidStates(s, ob);
    PutKeepsForest(t, id + 1, s.states[ob], NULL);
    if states != [] {
      assert Kids(s, ob)[0] in Kids(s, ob);
    }
    PutAllKeepsForest(Put(t, id + 1, s.states[ob], NULL), id + 2, states, id + 1);
  }

  /** Copying keeps the forest invariant and all existing objects; new objects
      get consecutive ids. */
  lemma {:induction false} CopyAllKeeps(t: Tree, s: Tree, obs: seq<Id>, id: Id)
    requires IsForest(t) && IsForest(s)
    requires forall ob :: ob in obs ==> ob in s.states
    requires forall k :: k in t.states ==> k <= id
    ensures
      var r := CopyAll(t, s, obs, id);
      && IsForest(r.tree) && id <= r.lastId
      && (forall k :: k in r.tree.states <==> k in t.states || id < k <= r.lastId)
      && (forall k :: k in t.states ==> r.tree.states[k] == t.states[k])
  {
    hide IsForest, CopyUnder;
    if obs != [] {
      var n := |obs| - 1;
      var b := CopyAll(t, s, obs[..n], id);
      CopyAllKeeps(t, s, obs[..n], id);
      CopyUnderStates(b.tree, s, obs[n], b.lastId);
      CopyUnderKeepsForest(b.tree, s, obs[n], b.lastId);
    }
  }

  lemma {:induction false} CopyAllLists(t: Tree, s: Tree, obs: seq<Id>, id: Id)
    requires IsForest(t) && IsForest(s)
    requires forall ob :: ob in obs ==> ob in s.states
    requires forall k :: k in t.states ==> k <= id
    ensures
      var r := CopyAll(t, s, obs, id);
      && (forall k :: k in t.states ==> Kids(r.tree, k) == Kids(t, k))
      && Kids(r.tree, NULL) == Kids(t, NULL) + r.roots
  {
    hide IsForest, CopyUnder, Kids;
    if obs == [] {
      assert Kids(t, NULL) + [] == Kids(t, NULL);
    } else {
      var n := |obs| - 1;
      var b := CopyAll(t, s, obs[..n], id);
      CopyAllKeeps(t, s, obs[..n], id);
      CopyAllLists(t, s, obs[..n], id);
      CopyUnderLists(b.tree, s, obs[n], b.lastId);
    }
  }

  /** Copying adds exactly one copy of each object to the end of the top
      level, in order. */
  lemma {:induction false} CopyAllIsFaithful(t: Tree, s: Tree, obs: seq<Id>, id: Id, i: nat)
    requires IsForest(t) && IsForest(s)
    requires forall ob :: ob in obs ==> ob in s.states
    requires forall k :: k in t.states ==> k <= id
    requires i < |obs|
    ensures
      var r := CopyAll(t, s, obs, id);
      && id < r.roots[i] <= r.lastId
      && IsCopyOf(r.tree, r.roots[i], s, obs[i])
  {
    hide IsForest, CopyUnder, Kids, IsCopyOf;
    var n := |obs| - 1;
    var b := CopyAll(t, s, obs[..n], id);
    var u := CopyAll(t, s, obs, id).tree;
    CopyAllKeeps(t, s, obs[..n], id);
    if i == n {
      CopyUnderIsCopy(b.tree, s, obs[n], b.lastId);
    } else {
      CopyAllIsFaithful(t, s, obs[..n], id, i);
      CopyUnderStates(b.tree, s, obs[n], b.lastId);
      CopyUnderLists(b.tree, s, obs[n], b.lastId);
      assert obs[i] in obs;
      CopyStays(b.tree, u, b.roots[i], s, obs[i]);
    }
  }

  lemma CopyStays(t: Tree, u: Tree, c: Id, s: Tree, ob: Id)
    requires IsForest(t) && ob in s.states && IsCopyOf(t, c, s, ob)
    requires forall k :: k in t.states ==> k in u.states && u.states[k] == t.states[k] && Kids(u, k) == Kids(t, k)
    ensures IsCopyOf(u, c, s, ob)
  {
    forall i | 0 <= i < |Kids(u, c)|
      ensures SameState(u, Kids(u, c)[i], s, Kids(s, ob)[i])
    {
      assert SameState(t, Kids(t, c)[i], s, Kids(s, ob)[i]);
    }
  }

  // Copying proper

  /** Append copies of a set of objects of s in ascending order. */
  ghost function CopySet(t: Tree, s: Tree, obs: set<Id>, id: Id): Copies
    requires IsForest(s) && obs <= s.states.Keys
  {
    CopyAll(t, s, Ascending(obs), id)
  }

  /** Whether copying has got so far. */
  ghost predicate HaveCopied(lib: Library, dest: Revision, rsel: set<Id>, c: Copies)
    reads lib`nextObjectId, dest`obstates, dest`children, dest`parent
  {
    && dest.View() == c.tree
    && lib.nextObjectId == c.lastId
    && forall k :: k in rsel <==> k in c.roots
  }

  /** An object with a larger id is copied last. */
  lemma CopyOneMore(t: Tree, s: Tree, done: set<Id>, ob: Id, id: Id)
    requires IsForest(s) && done <= s.states.Keys && ob in s.states
    requires forall x :: x in done ==> x < ob
    ensures CopySet(t, s, done + {ob}, id) == CopyStep(CopySet(t, s, done, id), s, ob)
  {
    hide IsForest, CopyStep;
    AscendingAppend(done, ob);
    var obs := Ascending(done + {ob});
    assert obs[..|obs| - 1] == Ascending(done);
  }

  /** Copy one of the selected objects and add the copy to the resulting
      selection. */
  method CopyOne(lib: Library, dest: Revision, src: Revision, ob: Id, rsel: set<Id>, copied: seq<Id>,
                 ghost base: Tree, ghost s: Tree, ghost c: Copies)
    returns (ok: bool, newSel: set<Id>, all: seq<Id>)
    requires lib.Valid() && dest in lib.live && src in lib.live && dest.isTransient
    requires IsForest(base) && IsForest(s) && IsCopying(dest, src, base, s, copied)
    requires ob in s.states && ob in src.obstates && src.obstates[ob] == s.states[ob]
    requires HaveCopied(lib, dest, rsel, c)
    modifies lib`nextObjectId, lib`states, lib`held, lib.states, dest
    ensures lib.Valid() && lib.OthersUntouched(dest) && lib.states <= old(lib.states)
    ensures lib.nextObjectId >= old(lib.nextObjectId)
    ensures Extends(dest.View(), base, all)
    ensures ok ==> HaveCopied(lib, dest, newSel, CopyStep(c, s, ob))
  {
    hide Library.Valid, IsForest, Extends, CopyUnder;
    var destOb;
    ok, destOb, all := CopyTree(lib, dest, src, ob, src.obstates[ob], NULL, copied, base, s, 1);
    newSel := rsel + {destOb};
    var outOfMemory := *;
    if outOfMemory {
      ok := false;
    }
  }

  /** How far the traversal of the source and the selection has got.  The
      source may have got new keys, but none of these are selected. */
  ghost predicate HavePassed(keys: set<Id>, s: Tree, sel: set<Id>, i: Cursor, j: Cursor, done: set<Id>) {
    && keys * sel == s.states.Keys * sel
    && InStep(keys, sel, i, j)
    && done == Common(keys, sel, i)
  }

  lemma PassedAreInSource(keys: set<Id>, s: Tree, sel: set<Id>, i: Cursor, j: Cursor, done: set<Id>)
    requires HavePassed(keys, s, sel, i, j, done)
    ensures done <= s.states.Keys
    ensures i.Some? && j.Some? && i.value == j.value ==>
      i.value in s.states && forall x :: x in done ==> x < i.value
  {
    assert forall x :: x in done ==> x in keys * sel;
    if i.Some? && j.Some? && i.value == j.value {
      assert i.value in keys * sel;
    }
  }

  lemma PassKey(keys: set<Id>, s: Tree, sel: set<Id>, i: Cursor, j: Cursor, done: set<Id>)
    requires HavePassed(keys, s, sel, i, j, done)
    requires i.Some? && j.Some? && i.value < j.value
    ensures HavePassed(keys, s, sel, Next(keys, i.value), j, done)
  {
    MergeSkipsKey(keys, sel, i, j);
  }

  lemma PassSelected(keys: set<Id>, s: Tree, sel: set<Id>, i: Cursor, j: Cursor, done: set<Id>)
    requires HavePassed(keys, s, sel, i, j, done)
    requires i.Some? && j.Some? && i.value > j.value
    ensures HavePassed(keys, s, sel, i, Next(sel, j.value), done)
    ensures j.value in sel
  {
    MergeSkipsSelected(keys, sel, i, j);
  }

  /** The source itself may have got the copies, but nothing selected. */
  lemma SourceMayGrow(dest: Revision, src: Revision, base: Tree, s: Tree, copied: seq<Id>,
                      obs: set<Id>, id: Id, sel: set<Id>)
    requires IsForest(base) && IsForest(s) && IsCopying(dest, src, base, s, copied)
    requires obs <= s.states.Keys
    requires dest.View() == CopySet(base, s, obs, id).tree
    requires (forall k :: k in base.states ==> k <= id) && (forall k :: k in sel ==> k <= id)
    ensures src.obstates.Keys * sel == s.states.Keys * sel
  {
    CopyAllKeeps(base, s, Ascending(obs), id);
  }

  lemma PassOneMore(before: set<Id>, keys: set<Id>, s: Tree, sel: set<Id>, i: Cursor, j: Cursor, done: set<Id>)
    requires HavePassed(before, s, sel, i, j, done)
    requires i.Some? && j.Some? && i.value == j.value
    requires keys * sel == s.states.Keys * sel
    ensures HavePassed(keys, s, sel, Next(keys, i.value), Next(sel, j.value), done + {i.value})
    ensures j.value in sel
  {
    assert forall x :: x in keys && x in sel <==> x in keys * sel;
    assert forall x :: x in before && x in sel <==> x in before * sel;
    assert InStep(keys, sel, i, j);
    assert Common(keys, sel, i) == Common(before, sel, i);
    MergeMeets(keys, sel, i, j);
  }

  /** Copy the object which both iterators point to; undo everything if there
      is not enough memory. */
  method CopyMatch(lib: Library, dest: Revision, src: Revision, ob: Id,
                   rsel: set<Id>, copied: seq<Id>, ghost base: Tree, ghost s: Tree, ghost id: Id,
                   ghost done: set<Id>, ghost sel: set<Id>)
    returns (ok: bool, newSel: set<Id>, all: seq<Id>)
    requires lib.Valid() && dest in lib.live && src in lib.live && dest.isTransient
    requires IsForest(base) && IsForest(s) && IsCopying(dest, src, base, s, copied)
    requires ob in s.states && done <= s.states.Keys && forall x :: x in done ==> x < ob
    requires HaveCopied(lib, dest, rsel, CopySet(base, s, done, id))
    requires (forall k :: k in base.states ==> k <= id) && (forall k :: k in sel ==> k <= id)
    modifies lib`nextObjectId, lib`states, lib`held, lib.states, dest
    ensures forall s :: s in lib.states ==> s in old(lib.states) || fresh(s)
    ensures lib.Valid() && lib.OthersUntouched(dest)
    ensures lib.nextObjectId >= old(lib.nextObjectId)
    ensures !ok ==> Same(dest.View(), base)
    ensures ok ==>
      && lib.states <= old(lib.states)
      && IsCopying(dest, src, base, s, all)
      && HaveCopied(lib, dest, newSel, CopySet(base, s, done + {ob}, id))
      && src.obstates.Keys * sel == s.states.Keys * sel
  {
    hide Library.Valid, IsForest, Extends, CopyStep, CopySet;
    CopyOneMore(base, s, done, ob, id);
    SourceIsIntact(dest, src, base, s, copied, ob);
    ok, newSel, all := CopyOne(lib, dest, src, ob, rsel, copied, base, s, CopySet(base, s, done, id));
    if ok {
      SourceMayGrow(dest, src, base, s, all, done + {ob}, id, sel);
    } else {
      RollBack(lib, dest, all, base);
    }
  }

  /** Copy the objects which are both in the source and in the selection. */
  method CopyCommon(lib: Library, dest: Revision, src: Revision, sel: set<Id>,
                    ghost base: Tree, ghost s: Tree, ghost id: Id)
    returns (ok: bool, rsel: set<Id>)
    requires lib.Valid() && dest in lib.live && src in lib.live && dest.isTransient
    requires base == dest.View() && s == src.View() && IsForest(base) && IsForest(s)
    requires (forall k :: k in base.states ==> k <= id) && (forall k :: k in sel ==> k <= id)
    requires lib.nextObjectId == id
    modifies lib`nextObjectId, lib`states, lib`held, lib.states, dest
    ensures forall s :: s in lib.states ==> s in old(lib.states) || fresh(s)
    ensures lib.Valid() && lib.live == old(lib.live) && lib.nextObjectId >= id
    ensures forall r :: r in lib.live ==> r.isTransient == old(r.isTransient)
    ensures forall r :: r in lib.live && r != dest ==> r.View() == old(r.View())
    ensures if ok then HaveCopied(lib, dest, rsel, CopySet(base, s, s.states.Keys * sel, id))
            else Same(dest.View(), base)
  {
    ok, rsel := true, {};
    var copied: seq<Id> := [];
    ghost var done: set<Id> := {};
    ExtendsItself(base);
    var i, j := Begin(src.obstates.Keys), Begin(sel);
    MergeBegins(src.obstates.Keys, sel);
    while i.Some? && j.Some?
      invariant lib.Valid() && lib.live == old(lib.live) && lib.states <= old(lib.states)
      invariant forall r :: r in lib.live ==> r.isTransient == old(r.isTransient)
      invariant forall r :: r in lib.live && r != dest ==> r.View() == old(r.View())
      invariant lib.nextObjectId >= id && ok
      invariant IsCopying(dest, src, base, s, copied)
      invariant HavePassed(src.obstates.Keys, s, sel, i, j, done) && done <= s.states.Keys
      invariant HaveCopied(lib, dest, rsel, CopySet(base, s, done, id))
      decreases Ahead(sel, j), if i.Some? && j.Some? && i.value < j.value then j.value - i.value else 0
    {
      hide Library.Valid, IsForest, IsCopying, CopyStep, CopySet, HaveCopied, HavePassed, InStep, Common, Same;
      ghost var keys := src.obstates.Keys;
      PassedAreInSource(keys, s, sel, i, j, done);
      if i.value < j.value {
        PassKey(keys, s, sel, i, j, done);
        i := Next(src.obstates.Keys, i.value);
      } else if i.value > j.value {
        PassSelected(keys, s, sel, i, j, done);
        NextIsAhead(sel, j.value);
        j := Next(sel, j.value);
      } else {
        ok, rsel, copied := CopyMatch(lib, dest, src, i.value, rsel, copied, base, s, id, done, sel);
        if !ok {
          return;
        }
        PassOneMore(keys, src.obstates.Keys, s, sel, i, j, done);
        NextIsAhead(sel, j.value);
        done := done + {i.value};
        i, j := Next(src.obstates.Keys, i.value), Next(sel, j.value);
      }
    }
    MergeEnds(src.obstates.Keys, sel, i, j);
  }

  /** Copy some objects to a transient revision, which may be the revision
      the objects are in. */
  method CopyObjects(lib: Library, dest: Revision, src: Revision, sel: set<Id>) returns (r: Result<set<Id>>)
    requires lib.Valid() && dest in lib.live && src in lib.live
    requires forall k :: k in sel ==> k <= lib.nextObjectId
    modifies lib`nextObjectId, lib`states, lib`held, lib.states, dest
    ensures forall s :: s in lib.states ==> s in old(lib.states) || fresh(s)
    ensures lib.Valid() && lib.OthersUntouched(dest)
    ensures lib.nextObjectId >= old(lib.nextObjectId)
    ensures !dest.isTransient ==> dest.View() == old(dest.View())
    ensures r.Err? ==> Same(dest.View(), old(dest.View()))
    ensures if !dest.isTransient then r == Err(RevisionNotTransient)
            else r.Ok? || r == Err(OutOfMemory)
    ensures r.Ok? ==>
      && IsForest(old(src.View()))
      && HaveCopied(lib, dest, r.value,
           CopySet(old(dest.View()), old(src.View()), old(src.obstates.Keys) * sel, old(lib.nextObjectId)))
  {
    if !dest.isTransient {
      return Err(RevisionNotTransient);
    }
    var outOfMemory := *;
    if outOfMemory {
      return Err(OutOfMemory);
    }
    assert lib.IsWellFormed(dest) && lib.IsWellFormed(src);
    hide IsForest, CopySet, HaveCopied, Same;
    var ok, rsel := CopyCommon(lib, dest, src, sel, dest.View(), src.View(), lib.nextObjectId);
    return if ok then Ok(rsel) else Err(OutOfMemory);
  }
}
